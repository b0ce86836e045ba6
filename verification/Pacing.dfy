/** Process-wide spacing of model calls (models/selectable.py). Callers claim their start times one at a
    time under a lock; the order of claims is any order. */
module Pacing {

  /** An environment variable: not set (or empty), not a number, or a number. */
  datatype Setting = Unset | Malformed | Number(v: real)

  /** `_model_min_interval` */
  function MinInterval(maxRpm: Setting, minInterval: Setting): (interval: real)
    ensures interval >= 0.0
    ensures maxRpm.Number? && maxRpm.v > 0.0 ==> interval * maxRpm.v == 60.0
    ensures maxRpm.Malformed? || (maxRpm.Number? && maxRpm.v <= 0.0) ==> interval == 0.0
    ensures maxRpm.Unset? && minInterval.Number? ==>
              interval >= minInterval.v && (interval == minInterval.v || interval == 0.0)
    ensures maxRpm.Unset? && !minInterval.Number? ==> interval == 0.0
  {
    match maxRpm
    case Number(v) => if v > 0.0 then 60.0 / v else 0.0
    case Malformed => 0.0
    case Unset =>
      match minInterval
      case Number(v) => if v > 0.0 then v else 0.0
      case _ => 0.0
  }

  function Max(a: real, b: real): real {
    if a >= b then a else b
  }

  /** Slot k, when the calls arrive at these times and the state starts at last. */
  function Slot(last: real, interval: real, arrivals: seq<real>, k: nat): real
    requires k < |arrivals|
  {
    Max(arrivals[k], (if k == 0 then last else Slot(last, interval, arrivals, k - 1)) + interval)
  }

  /** What slot k would be if call j, or the initial state (j == -1), alone pushed it back. */
  function Push(last: real, interval: real, arrivals: seq<real>, k: nat, j: int): real
    requires -1 <= j <= k < |arrivals|
  {
    if j < 0 then last + (k + 1) as real * interval else arrivals[j] + (k - j) as real * interval
  }

  lemma PushShifts(last: real, interval: real, arrivals: seq<real>, k: nat, j: int)
    requires -1 <= j <= k && k + 1 < |arrivals|
    ensures Push(last, interval, arrivals, k + 1, j) == Push(last, interval, arrivals, k, j) + interval
  {
    if j < 0 {
      assert (k + 2) as real * interval == (k + 1) as real * interval + interval;
    } else {
      assert (k + 1 - j) as real * interval == (k - j) as real * interval + interval;
    }
  }

  /** The closed form: slot k is the largest of the pushes of the calls up to it. */
  lemma {:induction false} SlotIsTheLargestPush(last: real, interval: real, arrivals: seq<real>, k: nat) returns (j: int)
    requires k < |arrivals|
    ensures -1 <= j <= k && Slot(last, interval, arrivals, k) == Push(last, interval, arrivals, k, j)
    ensures forall i :: -1 <= i <= k ==> Push(last, interval, arrivals, k, i) <= Slot(last, interval, arrivals, k)
  {
    if k == 0 {
      assert 1 as real * interval == interval && 0 as real * interval == 0.0;
      j := if arrivals[0] >= last + interval then 0 else -1;
    } else {
      var before := SlotIsTheLargestPush(last, interval, arrivals, k - 1);
      forall i | -1 <= i < k
        ensures Push(last, interval, arrivals, k, i) == Push(last, interval, arrivals, k - 1, i) + interval
      {
        PushShifts(last, interval, arrivals, k - 1, i);
      }
      assert Push(last, interval, arrivals, k, k) == arrivals[k] by { assert 0 as real * interval == 0.0; }
      j := if arrivals[k] >= Slot(last, interval, arrivals, k - 1) + interval then k else before;
    }
  }

  /** Slots are at least the interval apart, for any two claims. */
  lemma {:induction false} SlotsAreSpaced(last: real, interval: real, arrivals: seq<real>, i: nat, k: nat)
    requires i <= k < |arrivals|
    ensures Slot(last, interval, arrivals, k) >= Slot(last, interval, arrivals, i) + (k - i) as real * interval
    decreases k
  {
    if i == k {
      assert 0 as real * interval == 0.0;
    } else {
      SlotsAreSpaced(last, interval, arrivals, i, k - 1);
      assert (k - i) as real * interval == (k - 1 - i) as real * interval + interval;
    }
  }

  /** The claims whose slots fall in the minute [t, t + 60). */
  ghost function InMinute(last: real, interval: real, arrivals: seq<real>, t: real): set<nat> {
    set k: nat | k < |arrivals| && t <= Slot(last, interval, arrivals, k) < t + 60.0
  }

  lemma {:induction false} IntervalHolds(s: set<nat>, lo: nat, n: nat)
    requires forall k :: k in s ==> lo <= k < lo + n
    ensures |s| <= n
  {
    if n == 0 {
      assert s == {};
    } else {
      IntervalHolds(s - {lo + n - 1}, lo, n - 1);
      assert |s| <= |s - {lo + n - 1}| + 1;
    }
  }

  /** n intervals make a minute, when n is at least the cap. */
  lemma FullMinute(rpm: real, n: nat, m: nat)
    requires 0.0 < rpm <= n as real && n <= m
    ensures m as real * MinInterval(Number(rpm), Unset) >= 60.0
  {
    var interval := MinInterval(Number(rpm), Unset);
    assert m as real * interval >= rpm * interval;
  }

  /** So a claim n or more places later has its slot at least a minute later. */
  lemma MinuteApart(last: real, rpm: real, arrivals: seq<real>, n: nat, i: nat, k: nat)
    requires 0.0 < rpm <= n as real && i + n <= k < |arrivals|
    ensures var interval := MinInterval(Number(rpm), Unset);
            Slot(last, interval, arrivals, k) >= Slot(last, interval, arrivals, i) + 60.0
  {
    SlotsAreSpaced(last, MinInterval(Number(rpm), Unset), arrivals, i, k);
    FullMinute(rpm, n, k - i);
  }

  lemma {:induction false} Least(s: set<nat>) returns (first: nat)
    requires s != {}
    ensures first in s && forall k :: k in s ==> first <= k
  {
    first :| first in s;
    var rest := s - {first};
    if rest != {} {
      var y := Least(rest);
      assert forall k :: k in s ==> k == first || k in rest;
      first := if first <= y then first else y;
    } else {
      assert s == {first};
    }
  }

  /** With a calls-per-minute cap of rpm, any half-open minute holds at most n claimed slots, for every
      whole n from rpm up; so at most rpm when rpm is whole. */
  lemma MinuteBudget(last: real, rpm: real, arrivals: seq<real>, t: real, n: nat)
    requires 0.0 < rpm <= n as real
    ensures |InMinute(last, MinInterval(Number(rpm), Unset), arrivals, t)| <= n
  {
    hide MinInterval, Slot;
    var s := InMinute(last, MinInterval(Number(rpm), Unset), arrivals, t);
    if s != {} {
      var first := Least(s);
      forall k | first + n <= k < |arrivals| ensures k !in s {
        MinuteApart(last, rpm, arrivals, n, first, k);
      }
      IntervalHolds(s, first, n);
    }
  }

  /** Without a cap claims are at least the minimum interval apart, whatever arrives when. */
  lemma {:induction false} UncappedSpacing(last: real, min: real, arrivals: seq<real>, i: nat, k: nat)
    requires min > 0.0 && i <= k < |arrivals|
    ensures var interval := MinInterval(Unset, Number(min));
            Slot(last, interval, arrivals, k) >= Slot(last, interval, arrivals, i) + (k - i) as real * min
  {
    SlotsAreSpaced(last, MinInterval(Unset, Number(min)), arrivals, i, k);
  }

  /** The process-wide state. */
  class Pacer {
    const interval: real
    const initial: real
    var lastAt: real
    ghost var arrivals: seq<real>

    ghost predicate Valid()
      reads this
    {
      lastAt == if arrivals == [] then initial else Slot(initial, interval, arrivals, |arrivals| - 1)
    }

    constructor (interval: real, initial: real)
      ensures Valid() && this.interval == interval && this.initial == initial && arrivals == []
    {
      this.interval, this.initial, lastAt := interval, initial, initial;
      arrivals := [];
    }

    /** One call's claim, and how long it then sleeps. Without an interval nothing is claimed. */
    method Claim(now: real) returns (start: real, wait: real)
      requires Valid()
      modifies this
      ensures Valid() && start == now + wait && wait >= 0.0
      ensures interval <= 0.0 ==> wait == 0.0 && arrivals == old(arrivals) && lastAt == old(lastAt)
      ensures interval > 0.0 ==>
                && arrivals == old(arrivals) + [now]
                && start == Slot(initial, interval, arrivals, |arrivals| - 1)
    {
      if interval <= 0.0 { return now, 0.0; }
      start := if now >= lastAt + interval then now else lastAt + interval;
      SlotOfPrefix(initial, interval, arrivals, now);
      lastAt := start;
      arrivals := arrivals + [now];
      wait := start - now;
    }
  }

  /** Earlier slots do not depend on later calls. */
  lemma SlotOfPrefix(last: real, interval: real, arrivals: seq<real>, now: real)
    ensures Slot(last, interval, arrivals + [now], |arrivals|)
            == Max(now, (if arrivals == [] then last else Slot(last, interval, arrivals, |arrivals| - 1)) + interval)
  {
    if arrivals != [] { SameSlot(last, interval, arrivals, now, |arrivals| - 1); }
  }

  lemma {:induction false} SameSlot(last: real, interval: real, arrivals: seq<real>, now: real, k: nat)
    requires k < |arrivals|
    ensures Slot(last, interval, arrivals + [now], k) == Slot(last, interval, arrivals, k)
  {
    if k > 0 { SameSlot(last, interval, arrivals, now, k - 1); }
  }
}
