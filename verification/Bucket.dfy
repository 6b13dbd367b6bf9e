/**
 The hysteresis bucket every limit of the node is made of: a tumbling window, a charge counter,
 a trip threshold and a lower clear threshold.
 */
module Bucket {
  import opened Machine

  const WINDOW_MS: u32 := 90_000

  datatype Change = Unchanged | Tripped | Cleared

  /** The result of one charge: the bucket after it, whether the charge is refused, what changed. */
  datatype Charged = Charged(bucket: BucketState, refused: bool, change: Change)

  datatype BucketState = BucketState(windowStart: u32, count: u32, limited: bool, clearThreshold: u32) {

    function Windows(now: u32): nat {
      WrappingSub(now, windowStart) / WINDOW_MS
    }

    predicate LimitedAt(now: u32, clear: u32) {
      var threshold := if clearThreshold != 0 then clearThreshold else clear;
      limited && (Windows(now) == 0 || (Windows(now) == 1 && count >= threshold))
    }

    /** Close the windows that have passed. */
    function Roll(now: u32, clear: u32): BucketState {
      if Windows(now) == 0 then this
      else
        BucketState(WrappingAdd(windowStart, Windows(now) * WINDOW_MS), 0, LimitedAt(now, clear), clearThreshold)
    }

    /** One pass of the limiter over the bucket. */
    function Charge(trip: u32, clear: u32, charge: u32, now: u32): Charged {
      var rolled := this.(clearThreshold := clear).Roll(now, clear);
      var counted := rolled.(count := SaturatingAdd(rolled.count, charge));
      if !counted.limited && counted.count >= trip then
        Charged(counted.(limited := true, windowStart := now), true, Tripped)
      else
        Charged(counted, counted.limited, if limited && !rolled.limited then Cleared else Unchanged)
    }

    /** A bucket that was never used opens its first window at its first packet. */
    function Reopen(now: u32): BucketState {
      if windowStart == 0 && count == 0 && !limited then this.(windowStart := now) else this
    }
  }

  function Fresh(now: u32): BucketState { BucketState(now, 0, false, 0) }

  /** A charge leaves the present instant inside the bucket's window. */
  lemma ChargeEndsInWindow(b: BucketState, trip: u32, clear: u32, charge: u32, now: u32)
    ensures WrappingSub(now, b.Charge(trip, clear, charge, now).bucket.windowStart) < WINDOW_MS
  {
  }

  /**
   A bucket whose stored clear threshold is the one it is charged with refuses the charge exactly
   when it is limited at that instant, or the charge itself trips it.
   */
  lemma RefusedExactly(b: BucketState, trip: u32, clear: u32, charge: u32, now: u32)
    requires b.clearThreshold == 0 || b.clearThreshold == clear
    ensures var c := b.Charge(trip, clear, charge, now);
            c.refused <==> b.LimitedAt(now, clear) || c.change == Tripped
  {
  }

  // ---- Runs of unit charges on an unbounded clock ----

  /** The buckets met by a fixed limit: below the trip count unless limited. */
  ghost predicate Sound(b: BucketState, trip: u32) {
    !b.limited ==> b.count < trip
  }

  ghost predicate Ascending(times: seq<nat>) {
    forall i, j :: 0 <= i < j < |times| ==> times[i] <= times[j]
  }

  ghost predicate Within(times: seq<nat>, from: nat, until: nat) {
    forall i :: 0 <= i < |times| ==> from <= times[i] < until
  }

  function Step(b: BucketState, trip: u32, clear: u32, t: nat): Charged {
    b.Charge(trip, clear, 1, Clock(t))
  }

  /** The bucket after unit charges at the given instants. */
  function After(b: BucketState, trip: u32, clear: u32, times: seq<nat>): BucketState
    decreases |times|
  {
    if times == [] then b else After(Step(b, trip, clear, times[0]).bucket, trip, clear, times[1..])
  }

  /** How many of those charges are admitted. */
  function Admitted(b: BucketState, trip: u32, clear: u32, times: seq<nat>): nat
    decreases |times|
  {
    if times == [] then 0
    else
      var c := Step(b, trip, clear, times[0]);
      (if c.refused then 0 else 1) + Admitted(c.bucket, trip, clear, times[1..])
  }

  lemma {:induction false} SoundRun(b: BucketState, trip: u32, clear: u32, times: seq<nat>)
    requires Sound(b, trip)
    requires 0 < trip
    ensures Sound(After(b, trip, clear, times), trip)
    decreases |times|
  {
    if times == [] {
    } else {
      SoundRun(Step(b, trip, clear, times[0]).bucket, trip, clear, times[1..]);
    }
  }

  /** The unbounded instant the bucket's window opened, read at an instant inside that window. */
  ghost function OpenedAt(b: BucketState, t: nat): int {
    t - WrappingSub(Clock(t), b.windowStart)
  }

  // ---- Charges of any amount, with thresholds of their own ----

  /** What happens to a bucket: a charge under its own thresholds, or only the opening of an unused bucket. */
  datatype Touch =
    | Dose(t: nat, trip: u32, clear: u32, amount: u32)
    | Opening(t: nat)

  function Dosed(b: BucketState, x: Touch): Charged
    requires x.Dose?
  {
    b.Charge(x.trip, x.clear, x.amount, Clock(x.t))
  }

  function Touched(b: BucketState, x: Touch): BucketState {
    match x
    case Dose(_, _, _, _) => Dosed(b, x).bucket
    case Opening(t) => b.Reopen(Clock(t))
  }

  function AdmittedOf(b: BucketState, x: Touch): nat {
    if x.Dose? && !Dosed(b, x).refused then x.amount else 0
  }

  /** How much of all charges is admitted. */
  function AdmittedAmount(b: BucketState, touches: seq<Touch>): nat
    decreases |touches|
  {
    if touches == [] then 0 else AdmittedOf(b, touches[0]) + AdmittedAmount(Touched(b, touches[0]), touches[1..])
  }

  /** In the order of time, within an interval, and with no trip threshold above the ceiling. */
  ghost predicate Capped(touches: seq<Touch>, ceiling: u32, from: nat, until: nat) {
    && (forall i :: 0 <= i < |touches| ==> from <= touches[i].t < until)
    && (forall i, j :: 0 <= i < j < |touches| ==> touches[i].t <= touches[j].t)
    && (forall i :: 0 <= i < |touches| && touches[i].Dose? ==> 0 < touches[i].trip <= ceiling)
  }

  /**
   What the bucket can still admit before `from + WINDOW_MS`: the rest of its window, and one more
   window when the present one opened before `from`.
   */
  ghost function Allowance(b: BucketState, ceiling: u32, t: nat, from: nat): int {
    if OpenedAt(b, t) >= from then
      if b.limited then 0 else ceiling - 1 - b.count
    else
      if b.limited then ceiling - 1 else 2 * (ceiling - 1) - b.count
  }

  /** A later charge sees the window opened at the same instant or rolls it by one length. */
  lemma NextPass(b: BucketState, x: Touch, t: nat)
    requires WrappingSub(Clock(t), b.windowStart) < WINDOW_MS
    requires x.Dose? && t <= x.t < t + WINDOW_MS
    ensures WrappingSub(Clock(x.t), b.windowStart) == x.t - OpenedAt(b, t)
    ensures var c := Dosed(b, x);
            OpenedAt(c.bucket, x.t) == if c.change == Tripped then x.t
                                       else if x.t < OpenedAt(b, t) + WINDOW_MS then OpenedAt(b, t)
                                       else OpenedAt(b, t) + WINDOW_MS
  {
    ClockDifference(t, x.t);
  }

  /** One charge takes from the allowance what it admits. */
  lemma DoseTakes(b: BucketState, x: Touch, ceiling: u32, t: nat, from: nat)
    requires Sound(b, ceiling) && WrappingSub(Clock(t), b.windowStart) < WINDOW_MS
    requires x.Dose? && 0 < x.trip <= ceiling && from <= t <= x.t < from + WINDOW_MS
    ensures var c := Dosed(b, x).bucket;
            && Sound(c, ceiling) && WrappingSub(Clock(x.t), c.windowStart) < WINDOW_MS
            && AdmittedOf(b, x) + Allowance(c, ceiling, x.t, from) <= Allowance(b, ceiling, t, from)
  {
    NextPass(b, x, t);
    ChargeEndsInWindow(b, x.trip, x.clear, x.amount, Clock(x.t));
  }

  /** A first charge leaves room within two full windows. */
  lemma FirstDose(b: BucketState, x: Touch, ceiling: u32, from: nat)
    requires Sound(b, ceiling) && x.Dose? && 0 < x.trip <= ceiling && from <= x.t < from + WINDOW_MS
    ensures var c := Dosed(b, x).bucket;
            && Sound(c, ceiling) && WrappingSub(Clock(x.t), c.windowStart) < WINDOW_MS
            && AdmittedOf(b, x) + Allowance(c, ceiling, x.t, from) <= 2 * (ceiling - 1)
  {
    ChargeEndsInWindow(b, x.trip, x.clear, x.amount, Clock(x.t));
  }

  /** Opening an unused bucket now only shortens what it can admit. */
  lemma OpeningTakes(b: BucketState, x: Touch, ceiling: u32, from: nat)
    requires x.Opening? && Sound(b, ceiling) && ceiling > 0 && from <= x.t
    ensures Sound(Touched(b, x), ceiling)
    ensures Touched(b, x) != b ==>
              && WrappingSub(Clock(x.t), Touched(b, x).windowStart) < WINDOW_MS
              && Allowance(Touched(b, x), ceiling, x.t, from) == ceiling - 1
              && forall t :: from <= t ==> Allowance(Touched(b, x), ceiling, x.t, from) <= Allowance(b, ceiling, t, from)
  {
  }

  lemma {:induction false} AllowanceBound(b: BucketState, touches: seq<Touch>, ceiling: u32, t: nat, from: nat)
    requires ceiling > 0 && Sound(b, ceiling)
    requires WrappingSub(Clock(t), b.windowStart) < WINDOW_MS
    requires from <= t < from + WINDOW_MS
    requires Capped(touches, ceiling, t, from + WINDOW_MS)
    ensures AdmittedAmount(b, touches) <= Allowance(b, ceiling, t, from)
    decreases |touches|
  {
    if touches == [] {
    } else {
      var x, rest := touches[0], touches[1..];
      assert Capped(rest, ceiling, x.t, from + WINDOW_MS);
      if x.Dose? {
        DoseTakes(b, x, ceiling, t, from);
        AllowanceBound(Dosed(b, x).bucket, rest, ceiling, x.t, from);
      } else {
        OpeningTakes(b, x, ceiling, from);
        if Touched(b, x) == b {
          assert Capped(rest, ceiling, t, from + WINDOW_MS);
          AllowanceBound(b, rest, ceiling, t, from);
        } else {
          AllowanceBound(Touched(b, x), rest, ceiling, x.t, from);
        }
      }
    }
  }

  /**
   A tumbling window still bounds every sliding one, whatever is charged and whatever thresholds the charges
   bring: from any reachable bucket, at most `2 * (ceiling - 1)` is admitted inside any interval one window
   long, whatever the 32-bit clock does before it.
   */
  lemma {:induction false} WeightedSlidingBound(b: BucketState, touches: seq<Touch>, ceiling: u32, from: nat)
    requires ceiling > 0 && Sound(b, ceiling)
    requires Capped(touches, ceiling, from, from + WINDOW_MS)
    ensures AdmittedAmount(b, touches) <= 2 * (ceiling - 1)
    decreases |touches|
  {
    if touches == [] {
    } else {
      var x, rest := touches[0], touches[1..];
      assert Capped(rest, ceiling, x.t, from + WINDOW_MS);
      if x.Dose? {
        FirstDose(b, x, ceiling, from);
        AllowanceBound(Dosed(b, x).bucket, rest, ceiling, x.t, from);
      } else {
        OpeningTakes(b, x, ceiling, from);
        if Touched(b, x) == b {
          assert Capped(rest, ceiling, from, from + WINDOW_MS);
          WeightedSlidingBound(b, rest, ceiling, from);
        } else {
          AllowanceBound(Touched(b, x), rest, ceiling, x.t, from);
        }
      }
    }
  }

  // ---- Unit charges under fixed thresholds ----

  function Doses(trip: u32, clear: u32, times: seq<nat>): seq<Touch> {
    seq(|times|, i requires 0 <= i < |times| => Dose(times[i], trip, clear, 1))
  }

  lemma {:induction false} UnitDoses(b: BucketState, trip: u32, clear: u32, times: seq<nat>)
    ensures AdmittedAmount(b, Doses(trip, clear, times)) == Admitted(b, trip, clear, times)
    decreases |times|
  {
    if times != [] {
      assert Doses(trip, clear, times)[1..] == Doses(trip, clear, times[1..]);
      UnitDoses(Step(b, trip, clear, times[0]).bucket, trip, clear, times[1..]);
    }
  }

  /** At most `2 * (trip - 1)` unit charges are admitted inside any interval one window long. */
  lemma SlidingBound(b: BucketState, trip: u32, clear: u32, times: seq<nat>, from: nat)
    requires 0 < clear <= trip
    requires Sound(b, trip)
    requires Ascending(times) && Within(times, from, from + WINDOW_MS)
    ensures Admitted(b, trip, clear, times) <= 2 * (trip - 1)
  {
    UnitDoses(b, trip, clear, times);
    WeightedSlidingBound(b, Doses(trip, clear, times), trip, from);
  }

  /** The bound over a whole run: however the run reaches the interval, the interval obeys it. */
  lemma SlidingBoundInRun(
    b: BucketState, trip: u32, clear: u32, before: seq<nat>, inside: seq<nat>, from: nat)
    requires 0 < clear <= trip
    requires Sound(b, trip)
    requires Ascending(before + inside) && Within(inside, from, from + WINDOW_MS)
    ensures Admitted(After(b, trip, clear, before), trip, clear, inside) <= 2 * (trip - 1)
  {
    SoundRun(b, trip, clear, before);
    forall i, j | 0 <= i < j < |inside| ensures inside[i] <= inside[j] {
      assert (before + inside)[|before| + i] <= (before + inside)[|before| + j];
    }
    SlidingBound(After(b, trip, clear, before), trip, clear, inside, from);
  }

  /** Charges at one instant inside the window, short of the trip threshold, are all admitted. */
  lemma {:induction false} Filling(b: BucketState, trip: u32, clear: u32, t: nat, n: nat, rest: seq<nat>)
    requires !b.limited && b.Windows(Clock(t)) == 0 && b.count + n < trip
    ensures Admitted(b, trip, clear, Repeat(t, n) + rest) ==
            n + Admitted(if n == 0 then b else BucketState(b.windowStart, b.count + n, false, clear), trip, clear, rest)
    decreases n
  {
    var times := Repeat(t, n) + rest;
    if n == 0 {
      assert times == rest;
    } else {
      assert times[0] == t && times[1..] == Repeat(t, n - 1) + rest;
      Filling(Step(b, trip, clear, t).bucket, trip, clear, t, n - 1, rest);
    }
  }

  /** Both windows that meet a sliding one can be filled, so the bound is attained for every pair of thresholds. */
  lemma SlidingBoundIsAttained(trip: u32, clear: u32)
    requires trip > 1
    ensures var times := Repeat<nat>(89_999, trip - 1) + Repeat<nat>(90_000, trip - 1);
            && Ascending(times) && Within(times, 10_000, 10_000 + WINDOW_MS)
            && Admitted(Fresh(0), trip, clear, times) == 2 * (trip - 1)
  {
    var n := trip - 1;
    var second := Repeat<nat>(90_000, n);
    assert Fresh(0).Windows(Clock(89_999)) == 0;
    Filling(Fresh(0), trip, clear, 89_999, n, second);
    SecondWindow(BucketState(0, n, false, clear), trip, clear);
  }

  /** An unlimited bucket starts its next window empty. */
  lemma SecondWindow(b: BucketState, trip: u32, clear: u32)
    requires trip > 1 && b.windowStart == 0 && !b.limited
    ensures Admitted(b, trip, clear, Repeat<nat>(90_000, trip - 1)) == trip - 1
  {
    var times := Repeat<nat>(90_000, trip - 1);
    var c := Step(b, trip, clear, 90_000);
    assert b.Windows(Clock(90_000)) == 1;
    assert c == Charged(BucketState(90_000, 1, false, clear), false, Unchanged);
    assert times[0] == 90_000 && times[1..] == Repeat<nat>(90_000, trip - 2) + [];
    Filling(c.bucket, trip, clear, 90_000, trip - 2, []);
  }

  /** In the window after its trip, and in the one after that, a bucket is limited. */
  ghost predicate Banned(b: BucketState, trip: u32, clear: u32, t: nat, tripped: nat) {
    && b.limited
    && WrappingSub(Clock(t), b.windowStart) < WINDOW_MS
    && b.clearThreshold == clear
    && tripped <= t
    && (OpenedAt(b, t) == tripped + WINDOW_MS || (OpenedAt(b, t) == tripped && b.count >= trip))
  }

  lemma {:induction false} BannedRun(
    b: BucketState, trip: u32, clear: u32, t: nat, times: seq<nat>, tripped: nat)
    requires 0 < clear <= trip
    requires Banned(b, trip, clear, t, tripped)
    requires Ascending(times) && Within(times, t, tripped + 2 * WINDOW_MS)
    ensures Admitted(b, trip, clear, times) == 0
    decreases |times|
  {
    if times == [] {
    } else {
      var t' := times[0];
      ClockDifference(t, t');
      var c := Step(b, trip, clear, t');
      ChargeEndsInWindow(b, trip, clear, 1, Clock(t'));
      assert WrappingSub(Clock(t'), b.windowStart) == t' - OpenedAt(b, t);
      assert b.LimitedAt(Clock(t'), clear);
      BannedRun(c.bucket, trip, clear, t', times[1..], tripped);
    }
  }

  /** After a trip at `t` nothing is admitted before `t` plus two windows. */
  lemma TripSilencesTwoWindows(b: BucketState, trip: u32, clear: u32, t: nat, times: seq<nat>)
    requires 0 < clear <= trip
    requires Step(b, trip, clear, t).change == Tripped
    requires Ascending(times) && Within(times, t, t + 2 * WINDOW_MS)
    ensures Admitted(Step(b, trip, clear, t).bucket, trip, clear, times) == 0
  {
    BannedRun(Step(b, trip, clear, t).bucket, trip, clear, t, times, t);
  }

  /** A ban is not longer than that: with no traffic in between, two windows end it. */
  lemma QuietBanEnds(b: BucketState, trip: u32, clear: u32, t: nat, t': nat)
    requires 1 < trip
    requires Step(b, trip, clear, t).change == Tripped
    requires t + 2 * WINDOW_MS <= t' < t + U32_SPAN
    ensures !Step(Step(b, trip, clear, t).bucket, trip, clear, t').refused
  {
    ClockDifference(t, t');
  }
}
