/** Transmit-airtime accounting: a ring of 60 minute counters, and the duty-cycle permission over it. */
module Airtime {
  import opened Machine

  const PERIODS: nat := 6
  const MINUTES: nat := 60
  const MS_IN_HOUR: nat := 3_600_000
  const MAX_FRAME_AIRTIME_MS: u32 := 20_000
  const POLITE_DUTY_PERCENT: nat := 50

  datatype LogKind = Tx | Rx | RxAll

  datatype Air = Air(seconds: u32, channel: seq<u32>, tx: seq<u32>, lastPeriod: nat, lastMinute: nat) {

    predicate Ok() {
      && |channel| == PERIODS && |tx| == MINUTES
      && lastPeriod == Period() && lastMinute == MinuteSlot()
    }

    function Period(): nat { seconds / 10 % PERIODS }

    function MinuteSlot(): nat { seconds / 60 % MINUTES }

    function Tick(): (r: Air)
      requires Ok()
      ensures r.Ok()
    {
      var later := this.(seconds := SaturatingAdd(seconds, 1));
      Air(later.seconds,
          if lastPeriod != later.Period() then channel[later.Period() := 0] else channel,
          if lastMinute != later.MinuteSlot() then tx[later.MinuteSlot() := 0] else tx,
          later.Period(), later.MinuteSlot())
    }

    function Log(kind: LogKind, airtime: u32): (r: Air)
      requires Ok()
      ensures r.Ok()
    {
      var ms := Min(airtime, MAX_FRAME_AIRTIME_MS);
      this.(channel := channel[Period() := SaturatingAdd(channel[Period()], ms)],
            tx := if kind == Tx then tx[MinuteSlot() := SaturatingAdd(tx[MinuteSlot()], ms)] else tx)
    }

    /** Transmitting is allowed below half of the region's duty cycle. */
    predicate Allowed(dutyPercent: nat) {
      dutyPercent >= 100 || Sum(tx) * 10_000 < MS_IN_HOUR * dutyPercent * POLITE_DUTY_PERCENT
    }
  }

  function FreshAir(): Air { Air(0, Zeros(PERIODS), Zeros(MINUTES), 0, 0) }

  function Sum(s: seq<u32>): nat {
    if s == [] then 0 else Sum(s[..|s| - 1]) + s[|s| - 1]
  }

  lemma {:induction false} SumAppend(a: seq<u32>, b: seq<u32>)
    ensures Sum(a + b) == Sum(a) + Sum(b)
    decreases |b|
  {
    if b == [] {
      assert a + b == a;
    } else {
      assert (a + b)[..|a + b| - 1] == a + b[..|b| - 1];
      SumAppend(a, b[..|b| - 1]);
    }
  }

  lemma SumUpdate(s: seq<u32>, i: nat, x: u32)
    requires i < |s|
    ensures Sum(s[i := x]) == Sum(s) - s[i] + x
  {
    assert s == s[..i] + ([s[i]] + s[i + 1..]) && s[i := x] == s[..i] + ([x] + s[i + 1..]);
    SumAppend(s[..i], [s[i]] + s[i + 1..]);
    SumAppend(s[..i], [x] + s[i + 1..]);
    SumAppend([s[i]], s[i + 1..]);
    SumAppend([x], s[i + 1..]);
    assert [s[i]][..0] == [] && [x][..0] == [];
  }

  // ---- The ring against the full log of transmissions ----

  datatype Event = Event(minute: int, ms: nat)

  /** What was charged in one minute since boot. */
  ghost function MinuteSum(log: seq<Event>, minute: int): nat {
    if log == [] then 0
    else
      var last := log[|log| - 1];
      MinuteSum(log[..|log| - 1], minute) + (if last.minute == minute then last.ms else 0)
  }

  /** What was charged in the minutes `first`, ..., `first + n - 1`. */
  ghost function SpanSum(log: seq<Event>, first: int, n: nat): nat {
    if n == 0 then 0 else SpanSum(log, first, n - 1) + MinuteSum(log, first + n - 1)
  }

  function Minute(a: Air): nat { a.seconds / 60 }

  /** The hour that ends with the current minute. */
  ghost function HourSum(a: Air, log: seq<Event>): nat {
    SpanSum(log, Minute(a) - 59, MINUTES)
  }

  /** Each minute of the last hour has its own slot, exact until the counter saturates. */
  ghost predicate Tracks(a: Air, log: seq<Event>) {
    && a.Ok()
    && (forall i :: 0 <= i < |log| ==> log[i].minute <= Minute(a))
    && forall m: int :: Minute(a) - 59 <= m <= Minute(a) ==> a.tx[m % MINUTES] == Min(MinuteSum(log, m), U32_MAX)
  }

  lemma {:induction false} NoEvents(log: seq<Event>, minute: int)
    requires forall i :: 0 <= i < |log| ==> log[i].minute != minute
    ensures MinuteSum(log, minute) == 0
  {
    if log != [] {
      NoEvents(log[..|log| - 1], minute);
    }
  }

  lemma FreshTracks()
    ensures Tracks(FreshAir(), [])
  {
  }

  lemma TickTracks(a: Air, log: seq<Event>)
    requires Tracks(a, log)
    ensures Tracks(a.Tick(), log)
  {
    var b := a.Tick();
    assert Minute(b) == Minute(a) || Minute(b) == Minute(a) + 1;
    if Minute(b) == Minute(a) + 1 {
      NoEvents(log, Minute(b));
      forall m: int | Minute(b) - 59 <= m <= Minute(b)
        ensures b.tx[m % MINUTES] == Min(MinuteSum(log, m), U32_MAX)
      {
        if m < Minute(b) { RemaindersDiffer(m, Minute(b), MINUTES); }
      }
    }
  }

  lemma LogTracks(a: Air, log: seq<Event>, airtime: u32)
    requires Tracks(a, log)
    ensures Tracks(a.Log(Tx, airtime), log + [Event(Minute(a), Min(airtime, MAX_FRAME_AIRTIME_MS))])
  {
    var b := a.Log(Tx, airtime);
    var log' := log + [Event(Minute(a), Min(airtime, MAX_FRAME_AIRTIME_MS))];
    assert log'[..|log|] == log;
    forall m: int | Minute(b) - 59 <= m <= Minute(b)
      ensures b.tx[m % MINUTES] == Min(MinuteSum(log', m), U32_MAX)
    {
      if m < Minute(b) { RemaindersDiffer(m, Minute(b), MINUTES); }
    }
  }

  /** The ring read from its oldest minute on. */
  ghost function Rotated(s: seq<u32>, r: nat): seq<u32>
    requires r <= |s|
  {
    s[r..] + s[..r]
  }

  lemma RotatedSum(s: seq<u32>, r: nat)
    requires r <= |s|
    ensures Sum(Rotated(s, r)) == Sum(s)
  {
    SumCommutes(s[..r], s[r..]);
    assert s[..r] + s[r..] == s;
  }

  lemma SumCommutes(a: seq<u32>, b: seq<u32>)
    ensures Sum(a + b) == Sum(b + a)
  {
    SumAppend(a, b);
    SumAppend(b, a);
  }

  lemma {:induction false} SpanIsSum(log: seq<Event>, first: int, s: seq<u32>)
    requires forall k :: 0 <= k < |s| ==> s[k] == MinuteSum(log, first + k)
    ensures SpanSum(log, first, |s|) == Sum(s)
  {
    if s != [] {
      SpanIsSum(log, first, s[..|s| - 1]);
    }
  }

  /** The slot of the `k`-th oldest minute, counted from the slot after the current one. */
  lemma MinuteSlots(minute: int, k: nat)
    requires k < MINUTES
    ensures var r := (minute + 1) % MINUTES;
            (minute - 59 + k) % MINUTES == if r + k < MINUTES then r + k else r + k - MINUTES
  {
  }

  /** Until a slot saturates, the ring's total is the charged airtime of the last 60 minutes. */
  lemma RingIsLastHour(a: Air, log: seq<Event>)
    requires Tracks(a, log)
    requires forall m: int :: Minute(a) - 59 <= m <= Minute(a) ==> MinuteSum(log, m) < U32_MAX
    ensures Sum(a.tx) == HourSum(a, log)
  {
    var r := (Minute(a) + 1) % MINUTES;
    var first := Minute(a) - 59;
    RotatedSum(a.tx, r);
    var s := Rotated(a.tx, r);
    forall k | 0 <= k < |s| ensures s[k] == MinuteSum(log, first + k) {
      var m: int := first + k;
      assert a.tx[m % MINUTES] == MinuteSum(log, m);
      assert s[k] == a.tx[if r + k < MINUTES then r + k else r + k - MINUTES];
      MinuteSlots(Minute(a), k);
    }
    SpanIsSum(log, first, s);
  }

  lemma {:induction false} SlotBelowSum(s: seq<u32>, i: nat)
    requires i < |s|
    ensures s[i] <= Sum(s)
  {
    if i < |s| - 1 {
      SlotBelowSum(s[..|s| - 1], i);
    }
  }

  /** A ring that is far from saturation is exact. */
  lemma SmallRingIsLastHour(a: Air, log: seq<Event>)
    requires Tracks(a, log) && Sum(a.tx) < U32_MAX
    ensures Sum(a.tx) == HourSum(a, log)
  {
    forall m: int | Minute(a) - 59 <= m <= Minute(a) ensures MinuteSum(log, m) < U32_MAX {
      SlotBelowSum(a.tx, m % MINUTES);
    }
    RingIsLastHour(a, log);
  }

  /** The slots zeroed by time only lower the total; a permitted frame raises it by at most one clamp. */
  lemma TickLowersSum(a: Air)
    requires a.Ok()
    ensures Sum(a.Tick().tx) <= Sum(a.tx)
  {
    var b := a.Tick();
    SumUpdate(a.tx, b.MinuteSlot(), 0);
  }

  lemma LogRaisesSum(a: Air, kind: LogKind, airtime: u32)
    requires a.Ok()
    ensures Sum(a.Log(kind, airtime).tx) <= Sum(a.tx) + (if kind == Tx then MAX_FRAME_AIRTIME_MS else 0)
  {
    var ms := Min(airtime, MAX_FRAME_AIRTIME_MS);
    SumUpdate(a.tx, a.MinuteSlot(), SaturatingAdd(a.tx[a.MinuteSlot()], ms));
  }

  // ---- The tracker object ----

  class AirTime {
    const dutyPercent: nat
    var seconds: u32
    const channelUtilization: array<u32>
    const utilizationTx: array<u32>
    var lastPeriod: nat
    var lastMinute: nat

    ghost predicate Valid()
      reads this, channelUtilization, utilizationTx
    {
      channelUtilization != utilizationTx && Model().Ok()
    }

    ghost function Model(): Air
      reads this, channelUtilization, utilizationTx
    {
      Air(seconds, channelUtilization[..], utilizationTx[..], lastPeriod, lastMinute)
    }

    constructor (dutyPercent: nat)
      ensures Valid() && fresh(channelUtilization) && fresh(utilizationTx)
      ensures Model() == FreshAir() && this.dutyPercent == dutyPercent
    {
      this.dutyPercent := dutyPercent;
      seconds, lastPeriod, lastMinute := 0, 0, 0;
      channelUtilization := new u32[PERIODS](_ => 0);
      utilizationTx := new u32[MINUTES](_ => 0);
      new;
      assert channelUtilization[..] == Zeros(PERIODS);
      assert utilizationTx[..] == Zeros(MINUTES);
    }

    method TickSecond()
      requires Valid()
      modifies this`seconds, this`lastPeriod, this`lastMinute, channelUtilization, utilizationTx
      ensures Valid() && Model() == old(Model()).Tick()
    {
      seconds := SaturatingAdd(seconds, 1);
      var period := seconds / 10 % PERIODS;
      var minute := seconds / 60 % MINUTES;
      if lastPeriod != period {
        lastPeriod := period;
        channelUtilization[period] := 0;
      }
      if lastMinute != minute {
        lastMinute := minute;
        utilizationTx[minute] := 0;
      }
    }

    method LogAirtime(kind: LogKind, airtime: u32)
      requires Valid()
      modifies channelUtilization, utilizationTx
      ensures Valid() && Model() == old(Model()).Log(kind, airtime)
    {
      var ms := Min(airtime, MAX_FRAME_AIRTIME_MS);
      var period := seconds / 10 % PERIODS;
      channelUtilization[period] := SaturatingAdd(channelUtilization[period], ms);
      if kind == Tx {
        var minute := seconds / 60 % MINUTES;
        utilizationTx[minute] := SaturatingAdd(utilizationTx[minute], ms);
      }
    }

    method IsTxAllowed() returns (r: bool)
      requires Valid()
      ensures r == Model().Allowed(dutyPercent)
    {
      if dutyPercent >= 100 {
        return true;
      }
      var sum := 0;
      for i := 0 to MINUTES
        invariant sum == Sum(utilizationTx[..i])
      {
        assert utilizationTx[..i + 1][..i] == utilizationTx[..i];
        sum := sum + utilizationTx[i];
      }
      assert utilizationTx[..MINUTES] == utilizationTx[..];
      r := sum * 10_000 < MS_IN_HOUR * dutyPercent * POLITE_DUTY_PERCENT;
    }
  }
}
