/** Request pacing: every call reserves the earliest free slot on a shared schedule. */
module Limiter {
  import opened Wrappers
  import opened Ordering
  import opened Records

  /** The slot for a call at `now` when the next free time is `next`, if any is set. */
  function Slot(next: Option<Instant>, now: Instant): Instant {
    match next
    case None => now
    case Some(t) => if t < now then now else t
  }

  class TokenBucket {
    const minInterval: nat
    var last: Option<Instant>

    constructor (minInterval: nat)
      ensures this.minInterval == minInterval && last == None
    {
      this.minInterval := minInterval;
      last := None;
    }

    /** `pace_limiter`: reserves a slot under the lock and says how long to sleep. */
    method Pace(now: Instant) returns (wait: nat)
      modifies this
      ensures now + wait == Slot(old(last), now)
      ensures last == Some(now + wait + minInterval)
    {
      var scheduled := Slot(last, now);
      last := Some(scheduled + minInterval);
      wait := scheduled - now;
    }
  }

  /** The slots granted to calls at the given times. */
  function Grants(next: Option<Instant>, interval: nat, calls: seq<Instant>): (slots: seq<Instant>)
    ensures |slots| == |calls|
    decreases |calls|
  {
    if calls == [] then []
    else
      var slot := Slot(next, calls[0]);
      [slot] + Grants(Some(slot + interval), interval, calls[1..])
  }

  /** A whole sequence of calls on one limiter gets exactly `Grants`. */
  method PaceAll(limiter: TokenBucket, calls: seq<Instant>) returns (slots: seq<Instant>)
    modifies limiter
    ensures slots == Grants(old(limiter.last), limiter.minInterval, calls)
  {
    slots := [];
    var i := 0;
    while i < |calls|
      invariant 0 <= i <= |calls|
      invariant slots + Grants(limiter.last, limiter.minInterval, calls[i..])
             == Grants(old(limiter.last), limiter.minInterval, calls)
    {
      var wait := limiter.Pace(calls[i]);
      assert calls[i..][1..] == calls[i + 1..];
      slots := slots + [calls[i] + wait];
      i := i + 1;
    }
  }

  predicate Apart(slots: seq<Instant>, i: nat, j: nat, interval: nat)
    requires i < j < |slots|
  {
    slots[i] + (j - i) * interval <= slots[j]
  }

  /** A schedule that starts no call early and keeps the distance. */
  ghost predicate Feasible(next: Option<Instant>, interval: nat, calls: seq<Instant>, slots: seq<Instant>) {
    && |slots| == |calls|
    && (forall i :: 0 <= i < |calls| ==> calls[i] <= slots[i])
    && (next.Some? && slots != [] ==> next.value <= slots[0])
    && (forall i, j :: 0 <= i < j < |slots| ==> Apart(slots, i, j, interval))
  }

  /** The granted schedule is feasible, and no feasible schedule has any call earlier. */
  lemma {:induction false} GrantsAreEarliest(next: Option<Instant>, interval: nat, calls: seq<Instant>,
      other: seq<Instant>)
    ensures Feasible(next, interval, calls, Grants(next, interval, calls))
    ensures Feasible(next, interval, calls, other) ==>
              forall i :: 0 <= i < |calls| ==> Grants(next, interval, calls)[i] <= other[i]
    decreases |calls|
  {
    if calls != [] {
      var slots := Grants(next, interval, calls);
      var rest := Grants(Some(slots[0] + interval), interval, calls[1..]);
      var otherRest := if other == [] then [] else other[1..];
      GrantsAreEarliest(Some(slots[0] + interval), interval, calls[1..], otherRest);
      assert slots == [slots[0]] + rest;
      forall i, j | 0 <= i < j < |slots| ensures Apart(slots, i, j, interval) {
        assert j > 1 && i == 0 ==> Apart(rest, 0, j - 1, interval);
        assert i > 0 ==> Apart(rest, i - 1, j - 1, interval);
        ApartLater(slots, rest, i, j, interval);
      }
      hide Apart;
      forall i | 0 <= i < |calls| ensures calls[i] <= slots[i] {
        if i > 0 { assert calls[1..][i - 1] <= rest[i - 1]; }
      }
      if Feasible(next, interval, calls, other) {
        RestIsFeasible(next, interval, calls, other, slots[0]);
      }
    }
  }

  lemma RestIsFeasible(next: Option<Instant>, interval: nat, calls: seq<Instant>, other: seq<Instant>, slot: Instant)
    requires calls != [] && Feasible(next, interval, calls, other) && slot == Slot(next, calls[0])
    ensures slot <= other[0] && Feasible(Some(slot + interval), interval, calls[1..], other[1..])
  {
    var rest := other[1..];
    assert |other| > 1 ==> Apart(other, 0, 1, interval);
    forall i, j | 0 <= i < j < |rest| ensures Apart(rest, i, j, interval) {
      assert Apart(other, i + 1, j + 1, interval);
    }
  }

  lemma ApartLater(slots: seq<Instant>, rest: seq<Instant>, i: nat, j: nat, interval: nat)
    requires |slots| == |rest| + 1 && i < j < |slots| && slots[1..] == rest && slots[0] + interval <= rest[0]
    requires i > 0 ==> Apart(rest, i - 1, j - 1, interval)
    requires i == 0 && j > 1 ==> Apart(rest, 0, j - 1, interval)
    ensures Apart(slots, i, j, interval)
  {
    assert slots[j] == rest[j - 1] && (i > 0 ==> slots[i] == rest[i - 1]);
    if i == 0 { Multiple(j, interval); }
  }

  lemma Multiple(j: nat, interval: nat)
    requires j > 0
    ensures j * interval == interval + (j - 1) * interval
  {
  }

  lemma {:induction false} RangeSize(lo: int, hi: int, s: set<int>)
    requires lo <= hi + 1 && forall i :: i in s ==> lo <= i <= hi
    ensures |s| <= hi - lo + 1
    decreases hi - lo + 1
  {
    if hi in s {
      RangeSize(lo, hi - 1, s - {hi});
    } else if lo <= hi {
      RangeSize(lo, hi - 1, s);
    } else {
      assert forall i :: i !in s;
    }
  }

  /** Any closed window of length `window` holds at most `window / interval + 1` slots. */
  lemma WindowIsBounded(next: Option<Instant>, interval: nat, calls: seq<Instant>, start: Instant, window: nat)
    requires interval > 0
    ensures var slots := Grants(next, interval, calls);
            |set i | 0 <= i < |slots| && start <= slots[i] <= start + window| <= window / interval + 1
  {
    var slots := Grants(next, interval, calls);
    var inside := set i | 0 <= i < |slots| && start <= slots[i] <= start + window;
    GrantsAreEarliest(next, interval, calls, slots);
    hide Apart, Grants;
    if inside != {} {
      var leq := (a: int, b: int) => a <= b;
      var first := Least(leq, inside);
      assert forall i :: i in inside ==> leq(first, i);
      var most := window / interval;
      forall i | i in inside ensures first <= i <= first + most {
        if first < i { WithinWindow(slots, first, i, interval, window); }
      }
      RangeSize(first, first + most, inside);
    }
  }

  lemma WithinWindow(slots: seq<Instant>, i: nat, j: nat, interval: nat, window: nat)
    requires interval > 0 && i < j < |slots| && Apart(slots, i, j, interval) && slots[j] - slots[i] <= window
    ensures j - i <= window / interval
  {
    if j - i > window / interval { Overflow(j - i, window / interval, interval, window); }
  }

  lemma Overflow(n: nat, most: nat, interval: nat, window: nat)
    requires interval > 0 && most == window / interval && n > most
    ensures n * interval > window
  {
    hide *;
    Quotient(window, interval);
    Monotone(most + 1, n, interval);
  }

  lemma Quotient(window: nat, interval: nat)
    requires interval > 0
    ensures window < (window / interval + 1) * interval
  {
  }

  lemma Monotone(a: nat, b: nat, interval: nat)
    requires a <= b
    ensures a * interval <= b * interval
  {
  }
}
