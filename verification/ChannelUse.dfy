/** The channel's counters: six periods of ten seconds, which hold everything heard or sent in the last minute. */
module ChannelUse {
  import opened Machine
  import opened Airtime

  /** The number of the present ten-second period. An event's `minute` is such a number here. */
  function Period(a: Air): nat { a.seconds / 10 }

  /** Each period of the last minute has its own counter, exact until it saturates. */
  ghost predicate Hears(a: Air, log: seq<Event>) {
    && a.Ok()
    && (forall i :: 0 <= i < |log| ==> log[i].minute <= Period(a))
    && forall t: int :: Period(a) - 5 <= t <= Period(a) ==> a.channel[t % 6] == Min(MinuteSum(log, t), U32_MAX)
  }

  lemma FreshHears()
    ensures Hears(FreshAir(), [])
  {
  }

  /** A passing second clears the counter of a period that begins. */
  lemma TickHears(a: Air, log: seq<Event>)
    requires Hears(a, log)
    ensures Hears(a.Tick(), log)
  {
    var b := a.Tick();
    assert Period(b) == Period(a) || Period(b) == Period(a) + 1;
    if Period(b) == Period(a) + 1 {
      NoEvents(log, Period(b));
      forall t: int | Period(b) - 5 <= t <= Period(b) ensures b.channel[t % 6] == Min(MinuteSum(log, t), U32_MAX) {
        if t < Period(b) { RemaindersDiffer(t, Period(b), 6); }
      }
    }
  }

  /** Every frame counts, sent or received. */
  lemma LogHears(a: Air, log: seq<Event>, kind: LogKind, airtime: u32)
    requires Hears(a, log)
    ensures Hears(a.Log(kind, airtime), log + [Event(Period(a), Min(airtime, 20_000))])
  {
    var b := a.Log(kind, airtime);
    var more := log + [Event(Period(a), Min(airtime, 20_000))];
    assert more[..|log|] == log;
    forall t: int | Period(b) - 5 <= t <= Period(b) ensures b.channel[t % 6] == Min(MinuteSum(more, t), U32_MAX) {
      if t < Period(b) { RemaindersDiffer(t, Period(b), 6); }
    }
  }

  lemma PeriodSlots(period: int, k: nat)
    requires k < 6
    ensures var r := (period + 1) % 6; (period - 5 + k) % 6 == if r + k < 6 then r + k else r + k - 6
  {
  }

  /** Until a counter saturates, their total is what was heard and sent in the present and the last five periods. */
  lemma ChannelIsLastMinute(a: Air, log: seq<Event>)
    requires Hears(a, log)
    requires forall t: int :: Period(a) - 5 <= t <= Period(a) ==> MinuteSum(log, t) < U32_MAX
    ensures Sum(a.channel) == SpanSum(log, Period(a) - 5, 6)
  {
    var r, first := (Period(a) + 1) % 6, Period(a) - 5;
    RotatedSum(a.channel, r);
    var s := Rotated(a.channel, r);
    forall k | 0 <= k < |s| ensures s[k] == MinuteSum(log, first + k) {
      var t: int := first + k;
      assert a.channel[t % 6] == MinuteSum(log, t);
      assert s[k] == a.channel[if r + k < 6 then r + k else r + k - 6];
      PeriodSlots(Period(a), k);
    }
    SpanIsSum(log, first, s);
  }
}
