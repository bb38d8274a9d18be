/** The per-container line budget of logs_follower.py: refilled when a call comes
    a second or more after the window's start. Clock readings are reals. */
module RateCap {
  import opened Common

  datatype Budget = Budget(start: real, count: nat)

  const FRESH := Budget(0.0, 0)

  /** One call at time `now` under a cap of `cap` lines; a cap of zero or less is no cap. */
  function Spend(cap: int, b: Budget, now: real): (Budget, bool) {
    if cap <= 0 then (b, true)
    else
      var refilled := if now - b.start >= 1.0 then Budget(now, 0) else b;
      var spent := refilled.(count := refilled.count + 1);
      (spent, spent.count <= cap)
  }

  /** What each of a run of calls is answered. */
  function Verdicts(cap: int, b: Budget, times: seq<real>): (vs: seq<bool>)
    ensures |vs| == |times|
    decreases |times|
  {
    if |times| == 0 then []
    else
      var (next, ok) := Spend(cap, b, times[0]);
      [ok] + Verdicts(cap, next, times[1..])
  }

  class RateLimiter {
    const cap: int
    var budget: Budget
    var dropped: nat

    constructor (cap: int)
      ensures this.cap == cap && budget == FRESH == Budget(0.0, 0) && dropped == 0
    {
      this.cap := cap;
      budget := FRESH;
      dropped := 0;
    }

    method Allow(now: real) returns (ok: bool)
      modifies this
      ensures (budget, ok) == Spend(cap, old(budget), now)
      ensures cap <= 0 ==> ok && budget == old(budget)
      ensures cap > 0 && now - old(budget).start >= 1.0 ==> ok && budget == Budget(now, 1)
      ensures cap > 0 && now - old(budget).start < 1.0 ==>
        (ok <==> old(budget).count < cap) && budget == Budget(old(budget).start, old(budget).count + 1)
      ensures dropped == if ok then old(dropped) else old(dropped) + 1
    {
      if cap <= 0 {
        return true;
      }
      if now - budget.start >= 1.0 {
        budget := Budget(now, 0);
      }
      budget := budget.(count := budget.count + 1);
      if budget.count <= cap {
        return true;
      }
      dropped := dropped + 1;
      return false;
    }

    /** The number reported in the note, if one is due; asking clears it. */
    method OverflowNote() returns (note: Option<nat>)
      modifies this`dropped
      ensures note == if old(dropped) == 0 then None else Some(old(dropped))
      ensures dropped == 0
    {
      if dropped == 0 {
        return None;
      }
      note := Some(dropped);
      dropped := 0;
    }
  }

  /** The budget after a run of calls. */
  function Spent(cap: int, b: Budget, times: seq<real>): Budget {
    if |times| == 0 then b else Spend(cap, Spent(cap, b, Front(times)), Last(times)).0
  }

  lemma {:induction false} VerdictsSnoc(cap: int, b: Budget, times: seq<real>, now: real)
    ensures Verdicts(cap, b, times + [now])
         == Verdicts(cap, b, times) + [Spend(cap, Spent(cap, b, times), now).1]
    decreases |times|
  {
    var all := times + [now];
    if |times| > 0 {
      assert all[1..] == times[1..] + [now];
      var next := Spend(cap, b, times[0]).0;
      VerdictsSnoc(cap, next, times[1..], now);
      SpentCons(cap, b, times);
    }
  }

  lemma {:induction false} SpentCons(cap: int, b: Budget, times: seq<real>)
    requires |times| > 0
    ensures Spent(cap, b, times) == Spent(cap, Spend(cap, b, times[0]).0, times[1..])
    decreases |times|
  {
    if |times| > 1 {
      SpentCons(cap, b, Front(times));
      assert Front(times)[1..] == Front(times[1..]);
    }
  }

  // ---- what each call is answered ----

  /** The call that opened the window in force after `times`; -1 while none has. */
  function Opener(times: seq<real>): (i: int)
    ensures -1 <= i < |times|
  {
    if |times| == 0 then -1
    else
      var before := Opener(Front(times));
      if Last(times) - StartOf(times, before) >= 1.0 then |times| - 1 else before
  }

  /** The first window is taken to start at time zero. */
  function StartOf(times: seq<real>, opener: int): real
    requires -1 <= opener < |times|
  {
    if opener < 0 then 0.0 else times[opener]
  }

  /** Calls made in the window in force, the last one included. */
  function CallsInWindow(times: seq<real>): nat {
    if Opener(times) < 0 then |times| else |times| - Opener(times)
  }

  /** It is the last reading a second or more after the start of the window before it:
      what opens a window does so, and no reading since has. */
  lemma {:induction false} OpenerIsLast(times: seq<real>)
    ensures var o := Opener(times);
      && (o >= 0 ==> times[o] - StartOf(times, Opener(times[..o])) >= 1.0)
      && forall k :: o < k < |times| ==> times[k] - StartOf(times, o) < 1.0
  {
    if |times| > 0 {
      var front, o := Front(times), Opener(times);
      OpenerIsLast(front);
      if o == |times| - 1 {
        assert times[..o] == front;
      } else {
        assert o >= 0 ==> times[..o] == front[..o];
        assert forall k :: 0 <= k < |front| ==> front[k] == times[k];
      }
    }
  }

  lemma {:induction false} SpentIsWindow(cap: int, times: seq<real>)
    requires cap > 0
    ensures Spent(cap, FRESH, times) == Budget(StartOf(times, Opener(times)), CallsInWindow(times))
  {
    if |times| > 0 {
      SpentIsWindow(cap, Front(times));
    }
  }

  /** Over every run, on any clock: call `k` is answered with yes exactly when no more than
      `cap` calls, itself included, have been made since its window opened; and always when
      there is no cap. */
  lemma {:induction false} AnsweredYesIff(cap: int, times: seq<real>, k: nat)
    requires k < |times|
    ensures Verdicts(cap, FRESH, times)[k] <==> cap <= 0 || CallsInWindow(times[..k + 1]) <= cap
    decreases |times|
  {
    var front, now := Front(times), Last(times);
    assert times == front + [now];
    VerdictsSnoc(cap, FRESH, front, now);
    if k < |front| {
      AnsweredYesIff(cap, front, k);
      assert front[..k + 1] == times[..k + 1];
    } else {
      assert times[..k + 1] == times;
      if cap > 0 {
        SpentIsWindow(cap, front);
        SpentIsWindow(cap, times);
      }
    }
  }

  // ---- the rate bound ----

  function Ceil(x: real): (n: int)
    ensures x <= n as real < x + 1.0
  {
    -((-x).Floor)
  }

  ghost predicate NonDecreasing(times: seq<real>, from: real) {
    && (forall i :: 0 <= i < |times| ==> from <= times[i])
    && (forall i, j :: 0 <= i < j < |times| ==> times[i] <= times[j])
  }

  /** No reading lies before the start of the window it falls in. */
  predicate NeverBeforeWindow(cap: int, b: Budget, times: seq<real>)
    decreases |times|
  {
    |times| > 0 ==> b.start <= times[0] && NeverBeforeWindow(cap, Spend(cap, b, times[0]).0, times[1..])
  }

  /** A clock that never steps back is one of many such clocks. */
  lemma {:induction false} SteadyClockSuffices(cap: int, b: Budget, times: seq<real>)
    requires NonDecreasing(times, b.start)
    ensures NeverBeforeWindow(cap, b, times)
    decreases |times|
  {
    if |times| > 0 {
      SteadyClockSuffices(cap, Spend(cap, b, times[0]).0, times[1..]);
    }
  }

  /** How many calls with `lo <= time < hi` are admitted. */
  function AdmittedWithin(cap: int, b: Budget, times: seq<real>, lo: real, hi: real): nat
    decreases |times|
  {
    if |times| == 0 then 0
    else
      var (next, ok) := Spend(cap, b, times[0]);
      (if ok && lo <= times[0] < hi then 1 else 0) + AdmittedWithin(cap, next, times[1..], lo, hi)
  }

  /** How many of the answers to calls in that interval were yes. */
  function YesWithin(verdicts: seq<bool>, times: seq<real>, lo: real, hi: real): nat
    requires |verdicts| == |times|
  {
    if |times| == 0 then 0
    else (if verdicts[0] && lo <= times[0] < hi then 1 else 0) + YesWithin(verdicts[1..], times[1..], lo, hi)
  }

  lemma {:induction false} AdmittedAreVerdicts(cap: int, b: Budget, times: seq<real>, lo: real, hi: real)
    ensures AdmittedWithin(cap, b, times, lo, hi) == YesWithin(Verdicts(cap, b, times), times, lo, hi)
    decreases |times|
  {
    if |times| > 0 {
      AdmittedAreVerdicts(cap, Spend(cap, b, times[0]).0, times[1..], lo, hi);
    }
  }

  /** The most windows that can start in `[from, hi)`, a second or more apart. */
  function Slots(from: real, hi: real): int {
    if hi > from then Ceil(hi - from) else 0
  }

  function MaxReal(a: real, b: real): real { if a >= b then a else b }

  /** What the current window still has for `[lo, hi)`. */
  function Unspent(cap: int, b: Budget, lo: real, hi: real): int {
    if lo - 1.0 < b.start < hi then Max(0, cap - b.count) else 0
  }

  /** Windows after the current one that can still admit into `[lo, hi)`. */
  function Later(b: Budget, lo: real, hi: real): int {
    Slots(MaxReal(b.start + 1.0, lo - 1.0), hi)
  }

  lemma {:induction false} AdmittedWithinPotential(cap: int, b: Budget, times: seq<real>, lo: real, hi: real)
    requires cap > 0 && NeverBeforeWindow(cap, b, times)
    ensures AdmittedWithin(cap, b, times, lo, hi) <= Unspent(cap, b, lo, hi) + cap * Later(b, lo, hi)
    decreases |times|
  {
    ScaleMonotone(cap, 0, Later(b, lo, hi));
    if |times| > 0 {
      var now := times[0];
      var (next, ok) := Spend(cap, b, now);
      AdmittedWithinPotential(cap, next, times[1..], lo, hi);
      if now - b.start >= 1.0 {
        RefillUsesOneSlot(cap, b, now, lo, hi);
      }
    }
  }

  lemma RefillUsesOneSlot(cap: int, b: Budget, now: real, lo: real, hi: real)
    requires cap > 0 && now - b.start >= 1.0
    ensures (if lo - 1.0 < now < hi then cap else 0) + cap * Later(Budget(now, 1), lo, hi)
         <= cap * Later(b, lo, hi)
  {
    if lo - 1.0 < now < hi {
      SlotsAfter(MaxReal(b.start + 1.0, lo - 1.0), now, hi);
      ScaleMonotone(cap, Later(Budget(now, 1), lo, hi) + 1, Later(b, lo, hi));
    } else {
      SlotsMonotone(MaxReal(b.start + 1.0, lo - 1.0), MaxReal(now + 1.0, lo - 1.0), hi);
      ScaleMonotone(cap, Later(Budget(now, 1), lo, hi), Later(b, lo, hi));
    }
  }

  lemma SlotsMonotone(from: real, later: real, hi: real)
    requires from <= later
    ensures 0 <= Slots(later, hi) <= Slots(from, hi)
  {
  }

  lemma SlotsAfter(from: real, start: real, hi: real)
    requires from <= start < hi
    ensures Slots(start + 1.0, hi) + 1 <= Slots(from, hi)
  {
    var x := -(hi - start);
    assert (x + 1.0).Floor == x.Floor + 1;
    assert hi - (start + 1.0) == -(x + 1.0);
    SlotsMonotone(from, start, hi);
  }

  lemma ScaleMonotone(cap: int, a: int, b: int)
    requires cap >= 0 && a <= b
    ensures cap * a <= cap * b
  {
  }

  /** While no reading lies before its window's start, no half-open interval of length L
      admits more than (ceil(L) + 1) * cap lines. Stepping back within a window is harmless. */
  lemma RateBound(cap: int, times: seq<real>, lo: real, hi: real)
    requires cap > 0 && lo < hi && NeverBeforeWindow(cap, FRESH, times)
    ensures AdmittedWithin(cap, FRESH, times, lo, hi) <= (Ceil(hi - lo) + 1) * cap
  {
    AdmittedWithinPotential(cap, FRESH, times, lo, hi);
    var later, whole := Later(FRESH, lo, hi), Ceil(hi - lo);
    if lo - 1.0 < 0.0 {
      SlotsMonotone(lo, 1.0, hi);
      ScaleMonotone(cap, later, whole);
    } else {
      SlotsMonotone(lo - 1.0, MaxReal(1.0, lo - 1.0), hi);
      SlotsSecondEarlier(lo, hi);
      ScaleMonotone(cap, later, whole + 1);
    }
  }

  lemma SlotsSecondEarlier(lo: real, hi: real)
    requires lo < hi
    ensures Slots(lo - 1.0, hi) == Ceil(hi - lo) + 1
  {
    var x := -(hi - lo);
    assert (x - 1.0).Floor == x.Floor - 1;
    assert hi - (lo - 1.0) == -(x - 1.0);
  }

  function Repeat(now: real, n: nat): (times: seq<real>)
    ensures |times| == n && forall i :: 0 <= i < n ==> times[i] == now
  {
    if n == 0 then [] else [now] + Repeat(now, n - 1)
  }

  /** A burst inside one window is admitted up to the cap and then refused to the last call. */
  lemma {:induction false} BurstWithinWindow(cap: nat, b: Budget, now: real, n: nat, rest: seq<real>,
                                             lo: real, hi: real)
    requires cap > 0 && now - b.start < 1.0 && lo <= now < hi
    ensures AdmittedWithin(cap, b, Repeat(now, n) + rest, lo, hi)
         == (if b.count >= cap then 0 else if n < cap - b.count then n else cap - b.count)
            + AdmittedWithin(cap, Budget(b.start, b.count + n), rest, lo, hi)
    decreases n
  {
    var times := Repeat(now, n) + rest;
    if n == 0 {
      assert times == rest;
    } else {
      assert times[1..] == Repeat(now, n - 1) + rest;
      BurstWithinWindow(cap, Budget(b.start, b.count + 1), now, n - 1, rest, lo, hi);
    }
  }

  /** The bound is met: a one-second interval that straddles a refill admits twice the cap. */
  lemma OneSecondCanAdmitTwiceTheCap(cap: nat)
    requires cap > 0
    ensures NonDecreasing(Repeat(0.5, cap) + Repeat(1.0, cap), 0.0)
    ensures AdmittedWithin(cap, FRESH, Repeat(0.5, cap) + Repeat(1.0, cap), 0.5, 1.5)
         == (Ceil(1.5 - 0.5) + 1) * cap
  {
    var second := Repeat(1.0, cap);
    BurstWithinWindow(cap, FRESH, 0.5, cap, second, 0.5, 1.5);
    assert second == [1.0] + Repeat(1.0, cap - 1);
    assert second[1..] == Repeat(1.0, cap - 1) + [];
    BurstWithinWindow(cap, Budget(1.0, 1), 1.0, cap - 1, [], 0.5, 1.5);
    assert AdmittedWithin(cap, Budget(0.0, cap), second, 0.5, 1.5) == cap;
    assert Ceil(1.5 - 0.5) == 1;
  }

  // ---- clocks that step back ----

  /** Over all clocks whatever, the bound holds for a cap of one line and for no other. */
  lemma BoundHoldsOnAnyClockIff(cap: int)
    requires cap > 0
    ensures (forall times, lo, hi :: lo < hi ==>
              AdmittedWithin(cap, FRESH, times, lo, hi) <= (Ceil(hi - lo) + 1) * cap) <==> cap == 1
  {
    if cap == 1 {
      forall times, lo, hi | lo < hi
        ensures AdmittedWithin(cap, FRESH, times, lo, hi) <= (Ceil(hi - lo) + 1) * cap
      {
        OneLineRefills(FRESH, times, lo, hi);
        SlotsMonotone(lo, MaxReal(1.0, lo), hi);
      }
    } else {
      BackwardClockDefeatsBound(cap, 2 * cap + 1);
      assert Ceil(0.5 - 0.0) == 1;
      assert AdmittedWithin(cap, FRESH, SteppingClock(2 * cap + 1), 0.0, 0.5) > (Ceil(0.5 - 0.0) + 1) * cap;
    }
  }

  /** Under a cap of one, a line is admitted by the first window's one place or by a refill,
      and refills are a second or more apart on any clock. */
  lemma {:induction false} OneLineRefills(b: Budget, times: seq<real>, lo: real, hi: real)
    ensures AdmittedWithin(1, b, times, lo, hi) <= Max(0, 1 - b.count) + Slots(MaxReal(b.start + 1.0, lo), hi)
    decreases |times|
  {
    if |times| > 0 {
      var now := times[0];
      OneLineRefills(Spend(1, b, now).0, times[1..], lo, hi);
      if now - b.start >= 1.0 {
        if lo <= now < hi {
          SlotsAfter(MaxReal(b.start + 1.0, lo), now, hi);
        } else {
          SlotsMonotone(MaxReal(b.start + 1.0, lo), MaxReal(now + 1.0, lo), hi);
        }
      }
    }
  }

  /** A clock that steps back between refills: one call at `k` then one at time zero, for
      k = 1, 2, ..., n. */
  function SteppingClock(n: nat): seq<real> {
    if n == 0 then [] else SteppingClock(n - 1) + [n as real, 0.0]
  }

  /** Under any cap of two or more it puts `n` admitted lines at time zero. */
  lemma {:induction false} BackwardClockDefeatsBound(cap: int, n: nat)
    requires cap >= 2
    ensures AdmittedWithin(cap, FRESH, SteppingClock(n), 0.0, 0.5) == n
  {
    BackwardSteps(cap, n, []);
    assert SteppingClock(n) + [] == SteppingClock(n);
  }

  lemma {:induction false} BackwardSteps(cap: int, n: nat, rest: seq<real>)
    requires cap >= 2
    ensures AdmittedWithin(cap, FRESH, SteppingClock(n) + rest, 0.0, 0.5)
         == n + AdmittedWithin(cap, if n == 0 then FRESH else Budget(n as real, 2), rest, 0.0, 0.5)
  {
    if n == 0 {
      assert SteppingClock(n) + rest == rest;
    } else {
      var tail := [n as real, 0.0] + rest;
      assert SteppingClock(n) + rest == SteppingClock(n - 1) + tail;
      BackwardSteps(cap, n - 1, tail);
      assert tail[1..] == [0.0] + rest && tail[1..][1..] == rest;
    }
  }
}
