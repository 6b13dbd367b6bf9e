/**
 The two decisions of the limiter as rules over its fields and plain numbers: exactly when a packet is dropped,
 exactly when the query predicts it, and exactly when a drop comes unpredicted.
 */
module DropRules {
  import opened Machine
  import opened Bucket
  import opened Limiter
  import opened LimiterRuns
  import opened DropDecision
  import opened Establishment

  // ---- The rules ----

  /** Limited, and in the window of the trip or, still well used, in the one after it. */
  ghost predicate Stands(b: BucketState, clear: int, now: u32) {
    var age := WrappingSub(now, b.windowStart);
    b.limited && (age < 90_000 || (age < 180_000 && b.count >= clear))
  }

  /** The amount fills the bucket in its present window. */
  ghost predicate Fills(b: BucketState, trip: int, amount: nat, now: u32) {
    (if WrappingSub(now, b.windowStart) < 90_000 then b.count else 0) + amount >= trip
  }

  ghost predicate Governed(s: Limiter, p: Packet) {
    s.enabled && p.from != 0 && p.from != s.node && p.to != s.node
  }

  /** Packets of one port in 90 seconds: texts 30, routing 10, undecoded ones 12, all others 4. */
  ghost function Budget(port: Option<u32>): int {
    if port.None? then 12 else if port.value in {1, 7} then 30 else if port.value in {5, 70, 88} then 10 else 4
  }

  ghost function PortBucket(e: Originator, port: Option<u32>): BucketState {
    if port.None? then e.unknown
    else if port.value in {1, 7} then e.text
    else if port.value in {5, 70, 88} then e.routing
    else e.other
  }

  ghost predicate SilencedSender(e: Originator, now: u32) {
    Stands(e.text, 15, now) || Stands(e.routing, 5, now) || Stands(e.other, 2, now) || Stands(e.unknown, 6, now)
  }

  ghost predicate ToOneNode(p: Packet) { p.onDefault && p.to != 0 && p.to != 0xFFFF_FFFF }

  /** A destination is silenced as a sender, or as a destination. */
  ghost predicate SilencedDest(s: Limiter, p: Packet) {
    && ToOneNode(p)
    && (|| (exists i :: 0 <= i < |s.originators| && s.originators[i].id == p.to
              && SilencedSender(s.originators[i], p.now))
        || exists i :: 0 <= i < |s.dests| && s.dests[i].id == p.to && Stands(s.dests[i].bucket, 5, p.now))
  }

  /** A reply to relay that is the twentieth to its destination in 90 seconds, of three senders or more. */
  ghost predicate FillsDest(s: Limiter, p: Packet) {
    && ToOneNode(p) && p.candidate && (p.port == Some(3) || p.port == Some(4) || p.port == Some(67))
    && exists i :: 0 <= i < |s.dests| && s.dests[i].id == p.to && FillsEntry(s.dests[i], p)
  }

  ghost predicate FillsEntry(e: Dest, p: Packet) {
    var known := if WrappingSub(p.now, e.bucket.windowStart) < 90_000 then Values(e.senders) else {};
    Fills(e.bucket, if e.bucket.limited || |known + {p.from}| >= 3 then 20 else 0xFFFF_FFFF, 1, p.now)
  }

  ghost predicate SilencedOriginator(s: Limiter, p: Packet) {
    exists i :: 0 <= i < |s.originators| && s.originators[i].id == p.from
      && Stands(PortBucket(s.originators[i], p.port), Budget(p.port) / 2, p.now)
  }

  ghost predicate FillsOriginator(s: Limiter, p: Packet) {
    exists i :: 0 <= i < |s.originators| && s.originators[i].id == p.from
      && Fills(PortBucket(s.originators[i], p.port), Budget(p.port), 1, p.now)
  }

  ghost predicate Warm(a: Admission, now: u32) {
    a.warmed || (a.bootKnown && WrappingSub(now, a.boot) >= 1_800_000)
  }

  ghost predicate Recent(e: Sighting, now: u32) {
    !e.graduated && WrappingSub(now, e.firstSeen) < 1_800_000
  }

  /** Not known for half an hour. */
  ghost predicate NewNode(a: Admission, id: u32, now: u32) {
    id !in a.alumni && forall i :: 0 <= i < |a.young| && a.young[i].id == id ==> Recent(a.young[i], now)
  }

  /** The query takes a stranger for young only when the list has no room for it. */
  ghost predicate TakenForYoung(a: Admission, id: u32, now: u32) {
    && NewNode(a, id, now)
    && ((exists i :: 0 <= i < |a.young| && a.young[i].id == id)
        || (|a.young| == 32 && forall i :: 0 <= i < |a.young| ==> Recent(a.young[i], now)))
  }

  /** The relay a candidate is charged to by name: no placeholder, nor the node itself. */
  ghost predicate Names(s: Limiter, p: Packet, id: u32) {
    p.resolvedRelay == Some(id) && id != 0 && id != s.node && id < 0xFF00_0000
  }

  ghost predicate Unnamed(s: Limiter, p: Packet) { forall id: u32 :: !Names(s, p, id) }

  ghost function Airtime(p: Packet): u32 { if p.airtime == 0 then 100 else p.airtime }

  ghost function Between(x: int, low: int, high: int): int {
    if x < low then low else if x > high then high else x
  }

  /** Straight from sixty such packets at a quarter of the channel to thirty at half of it. */
  ghost function Ramp(air: u32, util: real): real { 60.0 * air as real * (75.0 - util) / 50.0 }

  /** Sixty such packets up to a quarter of the channel, thirty from half of it on, and a ramp between. */
  ghost function AirtimeBudget(air: u32, util: real): int {
    Between(if util <= 25.0 then 60 * air
            else if util < 50.0 then Ramp(air, util).Floor
            else 30 * air, 2_000, 12_000)
  }

  ghost function AirtimeClear(air: u32, util: real): int {
    Between(AirtimeBudget(air, util) / 4, 500, 4_000)
  }

  /** The clear threshold the bucket was last charged under. */
  ghost function StoredClear(b: BucketState): int { if b.clearThreshold == 0 then 500 else b.clearThreshold }

  /** What the packet's own budgets make of a bucket. */
  ghost predicate StandsFor(b: BucketState, p: Packet) {
    Stands(b, AirtimeClear(Airtime(p), p.util), p.now)
  }

  ghost predicate FillsFor(b: BucketState, p: Packet) {
    Fills(b, AirtimeBudget(Airtime(p), p.util), Airtime(p), p.now)
  }

  ghost predicate RoomForRelay(s: Limiter, now: u32) {
    || |s.relays| < 8
    || exists i :: 0 <= i < |s.relays| && !Stands(s.relays[i].bucket, StoredClear(s.relays[i].bucket), now)
  }

  /** The packet's airtime is refused by its relay's bucket, old or new. */
  ghost predicate RelayRefuses(s: Limiter, p: Packet) {
    || (exists i :: 0 <= i < |s.relays| && Names(s, p, s.relays[i].id)
          && (StandsFor(s.relays[i].bucket, p) || FillsFor(s.relays[i].bucket, p)))
    || ((exists id: u32 :: Names(s, p, id) && forall i :: 0 <= i < |s.relays| ==> s.relays[i].id != id)
        && RoomForRelay(s, p.now) && Airtime(p) >= AirtimeBudget(Airtime(p), p.util))
    || (Unnamed(s, p) && p.graphEstablished && (StandsFor(s.unresolved, p) || FillsFor(s.unresolved, p)))
  }

  ghost predicate SilencedRelay(s: Limiter, p: Packet) {
    || (exists i :: 0 <= i < |s.relays| && Names(s, p, s.relays[i].id)
          && Stands(s.relays[i].bucket, StoredClear(s.relays[i].bucket), p.now))
    || (Unnamed(s, p) && p.graphEstablished && Stands(s.unresolved, StoredClear(s.unresolved), p.now))
  }

  ghost predicate YoungRefused(s: Limiter, p: Packet) {
    && p.port.Some? && Warm(s.admission, p.now) && NewNode(s.admission, p.from, p.now)
    && (Stands(s.youngBucket, 12, p.now) || Fills(s.youngBucket, 48, 1, p.now))
  }

  /** Everything that stops a packet before its relay is asked. */
  ghost predicate SenderRefused(s: Limiter, p: Packet) {
    || SilencedDest(s, p) || FillsDest(s, p) || SilencedOriginator(s, p) || FillsOriginator(s, p) || YoungRefused(s, p)
  }

  ghost predicate DropRule(s: Limiter, p: Packet) {
    Governed(s, p) && (SenderRefused(s, p) || (p.candidate && RelayRefuses(s, p)))
  }

  ghost predicate QueryRule(s: Limiter, p: Packet) {
    && Governed(s, p)
    && (|| SilencedDest(s, p) || SilencedOriginator(s, p)
        || (p.port.Some? && Warm(s.admission, p.now) && TakenForYoung(s.admission, p.from, p.now)
            && Stands(s.youngBucket, 12, p.now))
        || (p.candidate && SilencedRelay(s, p)))
  }

  /** Refused with the young by the packet's own charge, or as a stranger for whom the young list has room. */
  ghost predicate YoungUnpredicted(s: Limiter, p: Packet) {
    && p.port.Some? && Warm(s.admission, p.now) && NewNode(s.admission, p.from, p.now)
    && (|| Fills(s.youngBucket, 48, 1, p.now)
        || (Stands(s.youngBucket, 12, p.now) && !TakenForYoung(s.admission, p.from, p.now)))
  }

  // ---- The guards are these rules ----

  lemma RefusesIs(b: BucketState, trip: u32, clear: u32, amount: u32, now: u32)
    ensures Refuses(b, trip, clear, amount, now) <==> Stands(b, clear, now) || Fills(b, trip, amount, now)
  {
  }

  lemma LimitedIs(b: BucketState, clear: u32, now: u32)
    ensures b.LimitedAt(now, clear)
            <==> Stands(b, if b.clearThreshold == 0 then clear else b.clearThreshold, now)
  {
  }

  lemma BudgetsAre(port: Option<u32>, e: Originator)
    ensures var kind := PortKindOf(port);
            && TripOf(kind) == Budget(port) && ClearOf(kind) == Budget(port) / 2 && e.Get(kind) == PortBucket(e, port)
            && (kind == PortKind.Unknown <==> port.None?)
  {
  }

  lemma RelayBudgetsAre(air: u32, util: real)
    requires air > 0
    ensures RelayBudgets(air, util) == (AirtimeBudget(air, util), AirtimeClear(air, util))
  {
    var trip := RelayBudgets(air, util).0;
    assert trip * 15 / 60 == trip / 4;
    assert trip == AirtimeBudget(air, util) by { RelayTripIs(air, util); }
    hide AirtimeBudget;
  }

  lemma RelayTripIs(air: u32, util: real)
    requires air > 0
    ensures RelayBudgets(air, util).0 == AirtimeBudget(air, util)
  {
    var base := SaturatingMul(60, air);
    var excess := if util > 50.0 then 1.0 else if util > 25.0 then (util - 25.0) / 25.0 else 0.0;
    var scaled := (base as real * (1.0 - 0.5 * excess)).Floor;
    assert RelayBudgets(air, util).0 == Between(scaled, 2_000, 12_000);
    if util <= 25.0 {
      assert base as real * (1.0 - 0.5 * excess) == base as real;
    } else if util >= 50.0 {
      assert excess == 1.0 && base as real * (1.0 - 0.5 * excess) == base as real * 0.5;
      HalfOf(base);
    } else {
      RampIs(air, util);
    }
    hide RelayBudgets;
  }

  lemma HalfOf(base: u32)
    ensures (base as real * 0.5).Floor == base / 2
  {
    assert base as real * 0.5 == (base / 2) as real + (base % 2) as real * 0.5;
  }

  lemma RampIs(air: u32, util: real)
    requires 25.0 < util < 50.0
    ensures var scale := 1.0 - 0.5 * ((util - 25.0) / 25.0);
            Between((SaturatingMul(60, air) as real * scale).Floor, 2_000, 12_000)
            == Between(Ramp(air, util).Floor, 2_000, 12_000)
  {
    var scale := 1.0 - 0.5 * ((util - 25.0) / 25.0);
    assert scale == (75.0 - util) / 50.0 && 0.5 < scale < 1.0;
    var base := 60 * air;
    assert Ramp(air, util) == base as real * scale;
    if base >= U32_SPAN {
      assert U32_MAX as real * scale >= U32_MAX as real * 0.5;
      assert base as real * scale >= base as real * 0.5;
    }
  }

  lemma SilencedSenderIs(e: Originator, now: u32)
    requires OriginatorOk(e)
    ensures e.LimitedAt(now) <==> SilencedSender(e, now)
  {
    assert Threshold(e.Get(Text), 15) && Threshold(e.Get(Routing), 5);
    assert Threshold(e.Get(Other), 2) && Threshold(e.Get(PortKind.Unknown), 6);
    LimitedIs(e.text, 15, now);
    LimitedIs(e.routing, 5, now);
    LimitedIs(e.other, 2, now);
    LimitedIs(e.unknown, 6, now);
    hide Stands, BucketState.LimitedAt;
  }

  // ---- Entries found and entries that exist ----

  lemma FoundIs(ids: seq<u32>, id: u32, i: nat)
    requires Distinct(ids) && i < |ids| && ids[i] == id
    ensures Find(ids, id) == Some(i)
  {
  }

  lemma OriginatorStopsIs(s: Limiter, p: Packet)
    requires OriginatorsOk(s.originators)
    ensures OriginatorStops(s, p) <==> SilencedOriginator(s, p) || FillsOriginator(s, p)
    ensures OriginatorWouldDrop(s, p) <==> SilencedOriginator(s, p)
  {
    var table, kind := s.originators, PortKindOf(p.port);
    var ids := OriginatorIds(table);
    var found := Find(ids, p.from);
    forall i | 0 <= i < |table|
      ensures Threshold(table[i].Get(kind), ClearOf(kind))
      ensures table[i].id == p.from <==> found == Some(i)
    {
      assert OriginatorOk(table[i]) && ids[i] == table[i].id;
      if table[i].id == p.from { FoundIs(ids, p.from, i); }
    }
    if found.Some? {
      var e := table[found.value];
      BudgetsAre(p.port, e);
      RefusesIs(e.Get(kind), TripOf(kind), ClearOf(kind), 1, p.now);
      LimitedIs(e.Get(kind), ClearOf(kind), p.now);
    }
    hide Stands, Fills, Refuses, BucketState.LimitedAt, TripOf, ClearOf, PortKindOf, Budget, PortBucket, Find;
  }

  lemma SenderSilenced(s: Limiter, id: u32, now: u32)
    requires OriginatorsOk(s.originators)
    ensures OriginatorLimitedAt(s.originators, id, now)
            <==> exists i :: 0 <= i < |s.originators| && s.originators[i].id == id
                   && SilencedSender(s.originators[i], now)
  {
    var table := s.originators;
    var ids := OriginatorIds(table);
    var found := Find(ids, id);
    forall i | 0 <= i < |table|
      ensures table[i].LimitedAt(now) <==> SilencedSender(table[i], now)
      ensures table[i].id == id <==> found == Some(i)
    {
      assert OriginatorOk(table[i]) && ids[i] == table[i].id;
      SilencedSenderIs(table[i], now);
      if table[i].id == id { FoundIs(ids, id, i); }
    }
    hide SilencedSender, Originator.LimitedAt, Find, OriginatorOk;
  }

  lemma DestEntryIs(e: Dest, p: Packet)
    requires DestOk(e) && p.from != 0
    ensures e.bucket.LimitedAt(p.now, DEST_CLEAR) <==> Stands(e.bucket, 5, p.now)
    ensures Refuses(e.bucket, DestTrip(e, p), DEST_CLEAR, 1, p.now)
            <==> Stands(e.bucket, 5, p.now) || FillsEntry(e, p)
  {
    LimitedIs(e.bucket, DEST_CLEAR, p.now);
    RefusesIs(e.bucket, DestTrip(e, p), DEST_CLEAR, 1, p.now);
    var known := if WrappingSub(p.now, e.bucket.windowStart) >= WINDOW_MS then [] else e.senders;
    NotedSenders(known, p.from);
    assert Values<u32>([]) == {};
    hide Stands, Fills, Refuses, BucketState.LimitedAt;
  }

  lemma NotedSenders(known: seq<u32>, from: u32)
    requires Distinct(known) && from != 0
    ensures |NoteSender(known, from)| >= DEST_MIN_SENDERS <==> |Values(known) + {from}| >= 3
  {
    DistinctCardinality(known);
    if from in known {
      assert Values(known) + {from} == Values(known);
    } else {
      assert from !in Values(known);
    }
  }

  lemma DestStopsIs(s: Limiter, p: Packet)
    requires OriginatorsOk(s.originators) && DestsOk(s.dests) && p.from != 0
    ensures DestStops(s, p) <==> SilencedDest(s, p) || FillsDest(s, p)
    ensures ToLimitedDest(s, p) <==> SilencedDest(s, p)
  {
    var table := s.dests;
    var ids := DestIds(table);
    var found := Find(ids, p.to);
    SenderSilenced(s, p.to, p.now);
    forall i | 0 <= i < |table| ensures table[i].id == p.to <==> found == Some(i) {
      assert ids[i] == table[i].id;
      if table[i].id == p.to { FoundIs(ids, p.to, i); }
    }
    if found.Some? { DestEntryIs(table[found.value], p); }
    hide Stands, FillsEntry, Refuses, BucketState.LimitedAt, OriginatorLimitedAt, SilencedSender, DestTrip, Find,
         DestOk;
  }

  lemma NewNodeIs(a: Admission, id: u32, now: u32)
    requires AdmissionOk(a)
    ensures Newcomer(a, id, now) <==> NewNode(a, id, now)
    ensures WarmedUp(a, now) <==> Warm(a, now)
    ensures IsYoung(a, id, now) <==> TakenForYoung(a, id, now)
  {
    var ids := YoungIds(a.young);
    var found := Find(ids, id);
    forall i | 0 <= i < |a.young| ensures a.young[i].id == id <==> found == Some(i) {
      assert ids[i] == a.young[i].id;
      if a.young[i].id == id { FoundIs(ids, id, i); }
    }
    forall i | 0 <= i < |a.young| ensures a.young[i].Active(now) <==> Recent(a.young[i], now) {}
    FullExactly(a.young, now);
    ActiveIdsAre(a.young, now);
    hide Find, Sighting.Active, Recent, ActiveIds;
  }

  lemma YoungStopsIs(s: Limiter, p: Packet)
    requires AdmissionOk(s.admission)
    ensures YoungStops(s, p) <==> YoungRefused(s, p)
  {
    NewNodeIs(s.admission, p.from, p.now);
    RefusesIs(s.youngBucket, YOUNG_TRIP, YOUNG_CLEAR, 1, p.now);
    hide Refuses, Stands, Fills, Newcomer, NewNode, WarmedUp, Warm;
  }

  lemma RelayRoomIs(s: Limiter, now: u32)
    ensures RelayRoom(s.relays, now) <==> RoomForRelay(s, now)
  {
    forall i | 0 <= i < |s.relays|
      ensures s.relays[i].bucket.LimitedAt(now, RELAY_CLEAR_FLOOR_MS)
              <==> Stands(s.relays[i].bucket, StoredClear(s.relays[i].bucket), now)
    {
      LimitedIs(s.relays[i].bucket, RELAY_CLEAR_FLOOR_MS, now);
    }
    hide Stands, BucketState.LimitedAt, StoredClear;
  }

  lemma RelayBucketIs(b: BucketState, p: Packet)
    ensures var (trip, clear) := RelayBudgets(RelayAirtime(p), p.util);
            Refuses(b, trip, clear, RelayAirtime(p), p.now) <==> StandsFor(b, p) || FillsFor(b, p)
    ensures b.LimitedAt(p.now, RELAY_CLEAR_FLOOR_MS) <==> Stands(b, StoredClear(b), p.now)
  {
    var (trip, clear) := RelayBudgets(RelayAirtime(p), p.util);
    RelayBudgetsAre(RelayAirtime(p), p.util);
    RefusesIs(b, trip, clear, RelayAirtime(p), p.now);
    LimitedIs(b, RELAY_CLEAR_FLOOR_MS, p.now);
    hide Stands, Fills, Refuses, BucketState.LimitedAt, RelayBudgets, AirtimeBudget, AirtimeClear;
  }

  lemma NamedIs(s: Limiter, p: Packet)
    ensures var named := NamedRelay(s.node, p.resolvedRelay);
            && (Unnamed(s, p) <==> named.None?)
            && forall id: u32 :: Names(s, p, id) <==> named == Some(id)
  {
    var named := NamedRelay(s.node, p.resolvedRelay);
    assert forall id: u32 :: Names(s, p, id) <==> named == Some(id);
    if named.Some? { assert Names(s, p, named.value); }
  }

  lemma RelayStopsIs(s: Limiter, p: Packet)
    requires RelaysOk(s.relays)
    ensures RelayStops(s, p) <==> RelayRefuses(s, p)
    ensures RelayWouldDrop(s, p) <==> SilencedRelay(s, p)
  {
    var table := s.relays;
    var ids := RelayIds(table);
    var named := NamedRelay(s.node, p.resolvedRelay);
    NamedIs(s, p);
    RelayBudgetsAre(RelayAirtime(p), p.util);
    if named.Some? {
      var found := Find(ids, named.value);
      forall i | 0 <= i < |table| ensures table[i].id == named.value <==> found == Some(i) {
        assert ids[i] == table[i].id;
        if table[i].id == named.value { FoundIs(ids, named.value, i); }
      }
      if found.Some? {
        RelayBucketIs(table[found.value].bucket, p);
      } else {
        RelayRoomIs(s, p.now);
        assert Names(s, p, named.value);
      }
    } else {
      RelayBucketIs(s.unresolved, p);
    }
    hide Stands, StandsFor, FillsFor, Refuses, BucketState.LimitedAt, RelayBudgets, AirtimeBudget, AirtimeClear, Find,
         Names, Unnamed, NamedRelay, RelayRoom, RoomForRelay, StoredClear;
  }

  // ---- The decisions ----

  /** Over every reachable state: a packet is dropped exactly by the rule. */
  lemma DropsByRule(s: Limiter, p: Packet, prox: u32 -> Proximity)
    requires Inv(s)
    ensures ShouldDrop(s, p, prox).drop <==> DropRule(s, p)
  {
    DropsExactly(s, p, prox);
    OriginatorStopsIs(s, p);
    if p.from != 0 { DestStopsIs(s, p); }
    YoungStopsIs(s, p);
    RelayStopsIs(s, p);
    hide ShouldDrop, DestStops, OriginatorStops, YoungStops, RelayStops, SilencedDest, FillsDest, SilencedOriginator,
         FillsOriginator, YoungRefused, RelayRefuses;
  }

  /** And the query predicts a drop exactly by its rule. */
  lemma PredictsByRule(s: Limiter, p: Packet)
    requires Inv(s)
    ensures WouldDrop(s, p).drop <==> QueryRule(s, p)
  {
    QueryIsSenderOrRelay(s, p);
    OriginatorStopsIs(s, p);
    if p.from != 0 { DestStopsIs(s, p); }
    NewNodeIs(s.admission, p.from, p.now);
    RelayStopsIs(s, p);
    LimitedIs(s.youngBucket, YOUNG_CLEAR, p.now);
    BudgetsAre(p.port, FreshOriginator(0, 0));
    hide WouldDrop, OriginatorWouldDrop, ToLimitedDest, RelayWouldDrop, SilencedDest, SilencedOriginator, SilencedRelay,
         IsYoung, TakenForYoung, WarmedUp, Warm, Stands, BucketState.LimitedAt, PortKindOf, NewNode, Budget;
  }

  /**
   A drop comes unpredicted exactly when the query's rule fails and the packet's own charge fills a bucket, or a
   stranger is refused with the young for whom the list has room, or the relay's ban is one the packet's lower
   thresholds keep up.
   */
  lemma UnderPredictsExactly(s: Limiter, p: Packet, prox: u32 -> Proximity)
    requires Inv(s)
    ensures ShouldDrop(s, p, prox).drop && !WouldDrop(s, p).drop <==>
            && Governed(s, p) && !QueryRule(s, p)
            && (FillsDest(s, p) || FillsOriginator(s, p) || YoungUnpredicted(s, p)
                || (p.candidate && RelayRefuses(s, p)))
  {
    DropsByRule(s, p, prox);
    PredictsByRule(s, p);
    hide ShouldDrop, WouldDrop, SilencedDest, FillsDest, SilencedOriginator, FillsOriginator, RelayRefuses,
         TakenForYoung, Warm, Stands, Fills, NewNode, SilencedRelay;
  }

  /** The airtime budget before it is clamped and cut to milliseconds. */
  ghost function Share(util: real): real {
    if util <= 25.0 then 50.0 else if util < 50.0 then 75.0 - util else 25.0
  }

  ghost function Scaled(air: u32, share: real): real { 1.2 * air as real * share }

  lemma ScaledFalls(air: u32, low: real, high: real)
    requires low <= high
    ensures Scaled(air, low) <= Scaled(air, high)
  {
    var a := 1.2 * air as real;
    assert a * high - a * low == a * (high - low);
  }

  lemma ScaledIs(air: u32, util: real)
    ensures AirtimeBudget(air, util) == Between(Scaled(air, Share(util)).Floor, 2_000, 12_000)
  {
    if util <= 25.0 {
      assert 1.2 * air as real * 50.0 == (60 * air) as real;
    } else if util < 50.0 {
      assert 1.2 * air as real * (75.0 - util) == Ramp(air, util);
    } else {
      assert 1.2 * air as real * 25.0 == (30 * air) as real;
    }
    hide Between, Ramp;
  }

  /** The busier the channel, the lower both thresholds. */
  lemma BudgetShrinks(air: u32, low: real, high: real)
    requires low <= high
    ensures AirtimeBudget(air, high) <= AirtimeBudget(air, low) && AirtimeClear(air, high) <= AirtimeClear(air, low)
  {
    ScaledIs(air, low);
    ScaledIs(air, high);
    assert Share(high) <= Share(low);
    hide AirtimeBudget, Share, Scaled;
    ScaledFalls(air, Share(high), Share(low));
    FloorsInOrder(Scaled(air, Share(high)), Scaled(air, Share(low)));
  }

  lemma FloorsInOrder(x: real, y: real)
    requires x <= y
    ensures Between(x.Floor, 2_000, 12_000) <= Between(y.Floor, 2_000, 12_000)
  {
  }

  /** Lower budgets refuse whatever higher ones refuse. */
  lemma RefusesMore(s: Limiter, p: Packet, q: Packet)
    requires q == p.(util := q.util) && p.util <= q.util
    ensures RelayRefuses(s, p) ==> RelayRefuses(s, q)
  {
    BudgetShrinks(Airtime(p), p.util, q.util);
    hide AirtimeBudget, AirtimeClear;
    assert forall id: u32 :: Names(s, p, id) == Names(s, q, id);
    assert Unnamed(s, p) == Unnamed(s, q);
    assert forall b: BucketState :: StandsFor(b, p) ==> StandsFor(b, q);
    assert forall b: BucketState :: FillsFor(b, p) ==> FillsFor(b, q);
    hide StandsFor, FillsFor, Unnamed, Names, RoomForRelay;
  }

  lemma SenderIgnoresUse(s: Limiter, p: Packet, use: real)
    ensures SenderRefused(s, p.(util := use)) == SenderRefused(s, p)
  {
    hide Stands, Fills, NewNode, Warm, Budget, PortBucket;
    assert forall e: Dest :: FillsEntry(e, p.(util := use)) == FillsEntry(e, p);
    hide FillsEntry;
  }

  /** A packet that is dropped is dropped on a busier channel too. */
  lemma UseOnlyTightens(s: Limiter, p: Packet, prox: u32 -> Proximity, use: real)
    requires Inv(s) && ShouldDrop(s, p, prox).drop && p.util <= use
    ensures ShouldDrop(s, p.(util := use), prox).drop
  {
    var q := p.(util := use);
    SenderIgnoresUse(s, p, use);
    hide ShouldDrop, SenderRefused, RelayRefuses, Inv;
    DropsByRule(s, p, prox);
    DropsByRule(s, q, prox);
    RefusesMore(s, p, q);
  }

  /** With an entry in the table that is not limited and in its window, only filling it refuses. */
  lemma RelayFills(s: Limiter, p: Packet, i: nat)
    requires RelaysOk(s.relays) && i < |s.relays| && Names(s, p, s.relays[i].id)
    requires !s.relays[i].bucket.limited
    ensures RelayRefuses(s, p) <==> FillsFor(s.relays[i].bucket, p)
  {
    forall j | 0 <= j < |s.relays| && Names(s, p, s.relays[j].id) ensures j == i {
      assert RelayIds(s.relays)[j] == RelayIds(s.relays)[i];
    }
    assert !StandsFor(s.relays[i].bucket, p) && !Unnamed(s, p);
    assert forall id: u32 :: Names(s, p, id) ==> id == s.relays[i].id;
    hide FillsFor, StandsFor, RoomForRelay, AirtimeBudget, Names, Unnamed;
  }

  lemma RelayUsed(s: Limiter, p: Packet, prox: u32 -> Proximity, i: nat)
    requires Inv(s) && Governed(s, p) && p.candidate && !SenderRefused(s, p)
    requires i < |s.relays| && Names(s, p, s.relays[i].id)
    requires !s.relays[i].bucket.limited && WrappingSub(p.now, s.relays[i].bucket.windowStart) < 90_000
    ensures ShouldDrop(s, p, prox).drop
            <==> s.relays[i].bucket.count + Airtime(p) >= AirtimeBudget(Airtime(p), p.util)
  {
    RelayFills(s, p, i);
    hide ShouldDrop, SenderRefused, RelayRefuses, Names, AirtimeBudget;
    DropsByRule(s, p, prox);
    hide Inv;
  }

  lemma BudgetCases(air: u32, util: real)
    ensures util <= 25.0 ==> AirtimeBudget(air, util) == Between(60 * air, 2_000, 12_000)
    ensures 25.0 < util < 50.0 ==>
              AirtimeBudget(air, util) == Between(Ramp(air, util).Floor, 2_000, 12_000)
    ensures util >= 50.0 ==> AirtimeBudget(air, util) == Between(30 * air, 2_000, 12_000)
  {
    hide Between, Ramp;
  }

  /**
   The boundary for a relay that is not limited, in its present window: how much airtime it has used decides, against
   sixty packets up to a quarter of the channel, thirty from half of it on, and a straight ramp between.
   */
  lemma RelayBoundary(s: Limiter, p: Packet, prox: u32 -> Proximity, i: nat)
    requires Inv(s) && Governed(s, p) && p.candidate && !SenderRefused(s, p)
    requires i < |s.relays| && Names(s, p, s.relays[i].id)
    requires !s.relays[i].bucket.limited && WrappingSub(p.now, s.relays[i].bucket.windowStart) < 90_000
    ensures var air := Airtime(p); var used := s.relays[i].bucket.count + air;
            && (p.util <= 25.0 ==>
                  (ShouldDrop(s, p, prox).drop <==> used >= Between(60 * air, 2_000, 12_000)))
            && (25.0 < p.util < 50.0 ==>
                  (ShouldDrop(s, p, prox).drop
                   <==> used >= Between(Ramp(air, p.util).Floor, 2_000, 12_000)))
            && (p.util >= 50.0 ==>
                  (ShouldDrop(s, p, prox).drop <==> used >= Between(30 * air, 2_000, 12_000)))
  {
    hide *;
    RelayUsed(s, p, prox, i);
    BudgetCases(Airtime(p), p.util);
  }

  /** The clear threshold is a quarter of that budget, within bounds of its own. */
  lemma ClearIsQuarter(air: u32, util: real)
    requires air > 0
    ensures var (trip, clear) := RelayBudgets(air, util);
            2_000 <= trip <= 12_000 && clear == Between(trip / 4, 500, 4_000)
  {
    RelayBudgetsAre(air, util);
    hide RelayBudgets;
  }
}
