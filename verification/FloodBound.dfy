/** A flood of new identities buys one bucket: what passes of all young originators together. */
module FloodBound {
  import opened Machine
  import opened Bucket
  import opened Limiter
  import opened LimiterRuns
  import opened BucketRuns

  /** The state in which the sender passes begin, and whether the packet gets that far. */
  function AfterDest(s: Limiter, p: Packet, prox: u32 -> Proximity): Decision {
    ChargeDest(s.(lastEvent := None, admission := NoteBoot(s.admission, p.now)), p, prox)
  }

  predicate ReachesSender(s: Limiter, p: Packet, prox: u32 -> Proximity) {
    !Exempt(s, p) && !AfterDest(s, p, prox).drop && !ToLimitedDest(AfterDest(s, p, prox).state, p)
  }

  /** The packet is of a node that counts as young once it has been noted. */
  predicate FromYoung(s: Limiter, p: Packet) {
    var a := NoteOriginator(NoteBoot(s.admission, p.now), p.from, p.now);
    PortKindOf(p.port) != Unknown && WarmedUp(a, p.now) && IsYoung(a, p.from, p.now)
  }

  /** A packet of a young originator that the limiter lets through. */
  predicate YoungPasses(s: Limiter, p: Packet, prox: u32 -> Proximity) {
    !Exempt(s, p) && FromYoung(s, p) && !ShouldDrop(s, p, prox).drop
  }

  lemma YoungBucketStep(s: Limiter, p: Packet, prox: u32 -> Proximity)
    ensures var c := s.youngBucket.Charge(YOUNG_TRIP, YOUNG_CLEAR, 1, p.now);
            var charged := ReachesSender(s, p, prox) && FromYoung(s, p);
            && ShouldDrop(s, p, prox).state.youngBucket == (if charged then c.bucket else s.youngBucket)
            && (charged && c.refused ==> ShouldDrop(s, p, prox).drop)
            && (YoungPasses(s, p, prox) ==> charged && !c.refused)
  {
    hide BucketState.Charge, NoteOriginator, IsYoung, LatchYoung, DestTablePass, OriginatorPass,
         RelayPass, ChargeAirtime;
    var d := AfterDest(s, p, prox);
    assert d.state.admission == NoteBoot(s.admission, p.now) && d.state.youngBucket == s.youngBucket;
    if ReachesSender(s, p, prox) {
      SenderStep(d.state, p, prox);
    }
  }

  lemma MaybeAnnounceFrame(s: Limiter, now: u32, util: real)
    ensures MaybeAnnounce(s, now, util).youngBucket == s.youngBucket
  {
  }

  lemma SenderStep(s: Limiter, p: Packet, prox: u32 -> Proximity)
    ensures var a := NoteOriginator(s.admission, p.from, p.now);
            var c := s.youngBucket.Charge(YOUNG_TRIP, YOUNG_CLEAR, 1, p.now);
            var charged := PortKindOf(p.port) != Unknown && WarmedUp(a, p.now) && IsYoung(a, p.from, p.now);
            && ChargeSender(s, p, prox).state.youngBucket == (if charged then c.bucket else s.youngBucket)
            && (charged && c.refused ==> ChargeSender(s, p, prox).drop)
  {
    hide BucketState.Charge, NoteOriginator, LatchYoung, MaybeAnnounce, OriginatorPass, RelayPass, ChargeAirtime;
    if PortKindOf(p.port) != Unknown {
      var noted := s.(admission := NoteOriginator(s.admission, p.from, p.now));
      var y := ChargeOriginator(noted, p, prox).state;
      var w := LatchWarm(y.admission, p.now);
      assert IsYoung(w, p.from, p.now) <==> IsYoung(y.admission, p.from, p.now);
      var latched := y.(admission := LatchYoung(w, p.from, p.now));
      var c := latched.youngBucket.Charge(YOUNG_TRIP, YOUNG_CLEAR, 1, p.now);
      MaybeAnnounceFrame(latched.(youngBucket := c.bucket, lastEvent := WithChange(y.lastEvent, c.change, 0, YoungLimit)),
                         p.now, p.util);
    }
  }

  // ---- Runs ----

  ghost predicate PassesYoung(s: Limiter, op: Op) { op.Receive? && YoungPasses(s, op.packet, op.prox) }

  ghost predicate ChargesYoung(s: Limiter, op: Op) {
    op.Receive? && ReachesSender(s, op.packet, op.prox) && FromYoung(s, op.packet)
  }

  /** How many packets of young originators a run lets through. */
  ghost function Passed(s: Limiter, ops: seq<TimedOp>): nat
    decreases |ops|
  {
    if ops == [] then 0
    else (if PassesYoung(s, ops[0].op) then 1 else 0) + Passed(Apply(s, ops[0].op), ops[1..])
  }

  /** The instants at which the run charges the shared bucket. */
  ghost function ChargeTimes(s: Limiter, ops: seq<TimedOp>): seq<nat>
    decreases |ops|
  {
    if ops == [] then []
    else
      var rest := ChargeTimes(Apply(s, ops[0].op), ops[1..]);
      if ChargesYoung(s, ops[0].op) then [ops[0].t] + rest else rest
  }

  lemma OpStep(s: Limiter, op: Op, t: nat)
    requires op.Receive? ==> op.packet.now == Clock(t)
    ensures var c := Step(s.youngBucket, YOUNG_TRIP, YOUNG_CLEAR, t);
            && Apply(s, op).youngBucket == (if ChargesYoung(s, op) then c.bucket else s.youngBucket)
            && (PassesYoung(s, op) ==> ChargesYoung(s, op) && !c.refused)
  {
    hide ShouldDrop, FromYoung, ReachesSender, YoungPasses, BucketState.Charge;
    if op.Receive? { YoungBucketStep(s, op.packet, op.prox); }
  }

  /** Everything that passes was admitted by the shared bucket, which nothing else touches. */
  lemma {:induction false} PassedByBucket(s: Limiter, ops: seq<TimedOp>)
    requires forall i :: 0 <= i < |ops| && ops[i].op.Receive? ==> ops[i].op.packet.now == Clock(ops[i].t)
    ensures Passed(s, ops) <= Admitted(s.youngBucket, YOUNG_TRIP, YOUNG_CLEAR, ChargeTimes(s, ops))
    decreases |ops|
  {
    if ops == [] {
    } else {
      var op, next := ops[0].op, Apply(s, ops[0].op);
      OpStep(s, op, ops[0].t);
      hide Apply, PassesYoung, ChargesYoung, BucketState.Charge, Step;
      PassedByBucket(next, ops[1..]);
      var later := ChargeTimes(next, ops[1..]);
      assert ([ops[0].t] + later)[1..] == later;
    }
  }

  lemma {:induction false} ChargesInOrder(s: Limiter, ops: seq<TimedOp>, from: nat, until: nat)
    requires OnTime(ops, from, until)
    ensures Ascending(ChargeTimes(s, ops)) && Within(ChargeTimes(s, ops), from, until)
    decreases |ops|
  {
    if ops != [] {
      assert OnTime(ops[1..], ops[0].t, until);
      var t := ops[0].t;
      assert from <= t < until;
      hide Apply, ChargesYoung, OnTime, Ascending, Within;
      ChargesInOrder(Apply(s, ops[0].op), ops[1..], t, until);
      PrependInOrder(t, ChargeTimes(Apply(s, ops[0].op), ops[1..]), from, until);
    } else {
      assert Ascending([]) && Within([], from, until);
    }
  }

  lemma PrependInOrder(t: nat, later: seq<nat>, from: nat, until: nat)
    requires from <= t < until && Ascending(later) && Within(later, t, until)
    ensures Ascending([t] + later) && Within([t] + later, from, until) && Within(later, from, until)
  {
  }

  lemma {:induction false} YoungSound(node: u32, ops: seq<Op>)
    ensures Sound(Run(Initial(node), ops).youngBucket, YOUNG_TRIP)
  {
    if ops == [] {
    } else {
      var n := |ops| - 1;
      YoungSound(node, ops[..n]);
      if ops[n].Receive? {
        YoungBucketStep(Run(Initial(node), ops[..n]), ops[n].packet, ops[n].prox);
      }
    }
  }

  /**
   However many identities are minted and however the run began: in any interval one window long, at most
   2 * (48 - 1) packets of young originators pass, all of them together.
   */
  lemma MintedFloodBound(node: u32, before: seq<Op>, ops: seq<TimedOp>, from: nat)
    requires OnTime(ops, from, from + WINDOW_MS)
    ensures Passed(Run(Initial(node), before), ops) <= 2 * (YOUNG_TRIP - 1)
  {
    var s := Run(Initial(node), before);
    YoungSound(node, before);
    PassedByBucket(s, ops);
    ChargesInOrder(s, ops, from, from + WINDOW_MS);
    SlidingBound(s.youngBucket, YOUNG_TRIP, YOUNG_CLEAR, ChargeTimes(s, ops), from);
  }

  /** The packet that trips the shared bucket is refused, and no young originator passes for two windows after it. */
  lemma FloodIsSilenced(s: Limiter, t: nat, p: Packet, prox: u32 -> Proximity, ops: seq<TimedOp>)
    requires p.now == Clock(t) && ReachesSender(s, p, prox) && FromYoung(s, p)
    requires s.youngBucket.Charge(YOUNG_TRIP, YOUNG_CLEAR, 1, p.now).change == Tripped
    requires OnTime(ops, t, t + 2 * WINDOW_MS)
    ensures ShouldDrop(s, p, prox).drop && Passed(ShouldDrop(s, p, prox).state, ops) == 0
  {
    YoungBucketStep(s, p, prox);
    var next := ShouldDrop(s, p, prox).state;
    PassedByBucket(next, ops);
    ChargesInOrder(next, ops, t, t + 2 * WINDOW_MS);
    TripSilencesTwoWindows(s.youngBucket, YOUNG_TRIP, YOUNG_CLEAR, t, ChargeTimes(next, ops));
  }
}
