/**
 What a packet leaves behind in the limiter besides its fate, read off the fields: the charged bucket, who makes room
 for a new entry, the announcement, and the last event.
 */
module LimiterRules {
  import opened Machine
  import opened Bucket
  import opened Limiter
  import opened LimiterRuns
  import opened DropDecision
  import opened Establishment
  import opened DropRules

  // ---- One charge ----

  ghost function ChangeRule(b: BucketState, trip: int, clear: int, amount: nat, now: u32): Change {
    if Stands(b, clear, now) then Unchanged
    else if Fills(b, trip, amount, now) then Tripped
    else if b.limited then Cleared
    else Unchanged
  }

  /** The window goes on, or starts anew at its next multiple of 90 seconds; a trip starts it now. */
  lemma ChargeByRule(b: BucketState, trip: u32, clear: u32, amount: u32, now: u32)
    ensures var c := b.Charge(trip, clear, amount, now); var change := ChangeRule(b, trip, clear, amount, now);
            var age := WrappingSub(now, b.windowStart);
            && c.change == change && (c.refused <==> Stands(b, clear, now) || change == Tripped)
            && c.bucket.limited == (Stands(b, clear, now) || change == Tripped)
            && c.bucket.count == Min((if age < 90_000 then b.count else 0) + amount, U32_MAX)
            && c.bucket.clearThreshold == clear
            && c.bucket.windowStart == (if change == Tripped then now
                                        else WrappingAdd(b.windowStart, age / 90_000 * 90_000))
  {
    assert b.Windows(now) == WrappingSub(now, b.windowStart) / 90_000;
  }

  // ---- Who makes room ----

  /** Outside the graph before inside it, then the more hops, then the older. */
  ghost predicate GoesFirst(p: Proximity, age: nat, q: Proximity, otherAge: nat) {
    || (!p.inGraph && q.inGraph)
    || (p.inGraph == q.inGraph && (p.hops > q.hops || (p.hops == q.hops && age > otherAge)))
  }

  lemma OriginatorMakesRoom(table: seq<Originator>, id: u32, now: u32, prox: u32 -> Proximity)
    requires OriginatorsOk(table) && |table| == 16 && id !in OriginatorIds(table)
    ensures var slot := OriginatorSlot(table, id, now, prox);
            && (slot.None? <==> forall i :: 0 <= i < 16 ==> SilencedSender(table[i], now))
            && (slot.Some? ==>
                  && slot.value < 16 && !SilencedSender(table[slot.value], now)
                  && var k := slot.value; var age := WrappingSub(now, table[k].lastSeen);
                     forall j :: 0 <= j < 16 && !SilencedSender(table[j], now) ==>
                       var other := WrappingSub(now, table[j].lastSeen);
                       && !GoesFirst(prox(table[j].id), other, prox(table[k].id), age)
                       && (j < k ==> GoesFirst(prox(table[k].id), age, prox(table[j].id), other)))
  {
    var ranks := OriginatorRanks(table, now, prox);
    forall i | 0 <= i < 16 ensures ranks[i].limited <==> SilencedSender(table[i], now) {
      assert OriginatorIds(table)[i] == table[i].id && OriginatorOk(table[i]);
      FoundIs(OriginatorIds(table), table[i].id, i);
      SilencedSenderIs(table[i], now);
      assert ranks[i] == RankOf(OriginatorLimitedAt(table, table[i].id, now), prox(table[i].id),
                                WrappingSub(now, table[i].lastSeen));
      hide SilencedSender, WrappingSub;
    }
    assert IsEvictionChoice(ranks, EvictionCandidate(ranks));
    hide SilencedSender, OriginatorLimitedAt, WrappingSub;
  }

  lemma RelayMakesRoom(table: seq<Relay>, id: u32, now: u32, prox: u32 -> Proximity)
    requires |table| == 8 && id !in RelayIds(table)
    ensures var slot := RelaySlot(table, id, now, prox);
            && (slot.None? <==> forall i :: 0 <= i < 8 ==> Stands(table[i].bucket, StoredClear(table[i].bucket), now))
            && (slot.Some? ==>
                  && slot.value < 8 && !Stands(table[slot.value].bucket, StoredClear(table[slot.value].bucket), now)
                  && var k := slot.value; var age := WrappingSub(now, table[k].bucket.windowStart);
                     forall j :: 0 <= j < 8 && !Stands(table[j].bucket, StoredClear(table[j].bucket), now) ==>
                       var other := WrappingSub(now, table[j].bucket.windowStart);
                       && !GoesFirst(prox(table[j].id), other, prox(table[k].id), age)
                       && (j < k ==> GoesFirst(prox(table[k].id), age, prox(table[j].id), other)))
  {
    var ranks := RelayRanks(table, now, prox);
    forall i | 0 <= i < 8 ensures ranks[i].limited <==> Stands(table[i].bucket, StoredClear(table[i].bucket), now) {
      var b := table[i].bucket;
      LimitedIs(b, RELAY_CLEAR_FLOOR_MS, now);
      assert ranks[i] == RankOf(b.LimitedAt(now, RELAY_CLEAR_FLOOR_MS), prox(table[i].id),
                                WrappingSub(now, b.windowStart));
      hide Stands, BucketState.LimitedAt, WrappingSub;
    }
    assert IsEvictionChoice(ranks, EvictionCandidate(ranks));
    hide Stands, StoredClear, BucketState.LimitedAt, WrappingSub;
  }

  lemma DestMakesRoom(table: seq<Dest>, id: u32, now: u32, prox: u32 -> Proximity)
    requires DestsOk(table) && |table| == 8 && id !in DestIds(table)
    ensures var slot := DestSlot(table, id, now, prox);
            && (slot.None? <==> forall i :: 0 <= i < 8 ==> Stands(table[i].bucket, 5, now))
            && (slot.Some? ==>
                  && slot.value < 8 && !Stands(table[slot.value].bucket, 5, now)
                  && var k := slot.value; var age := WrappingSub(now, table[k].bucket.windowStart);
                     forall j :: 0 <= j < 8 && !Stands(table[j].bucket, 5, now) ==>
                       var other := WrappingSub(now, table[j].bucket.windowStart);
                       && !GoesFirst(prox(table[j].id), other, prox(table[k].id), age)
                       && (j < k ==> GoesFirst(prox(table[k].id), age, prox(table[j].id), other)))
  {
    var ranks := DestRanks(table, now, prox);
    forall i | 0 <= i < 8 ensures ranks[i].limited <==> Stands(table[i].bucket, 5, now) {
      var b := table[i].bucket;
      assert DestOk(table[i]);
      LimitedIs(b, DEST_CLEAR, now);
      assert ranks[i] == RankOf(b.LimitedAt(now, DEST_CLEAR), prox(table[i].id), WrappingSub(now, b.windowStart));
      hide Stands, BucketState.LimitedAt, WrappingSub;
    }
    assert IsEvictionChoice(ranks, EvictionCandidate(ranks));
    hide Stands, BucketState.LimitedAt, WrappingSub, DestOk;
  }

  /** A destination that is charged first opens its window now, with its first sender. */
  lemma NewDestination(table: seq<Dest>, p: Packet, prox: u32 -> Proximity)
    requires |table| < 8 && p.to !in DestIds(table) && ChargesDest(p) && p.from != 0
    ensures DestTablePass(table, p, prox).table
            == table + [Dest(p.to, BucketState(p.now, 1, false, 5), [p.from])]
  {
    var e := FreshDest(p.to, p.now);
    assert WrappingSub(p.now, p.now) == 0;
    assert DestPass(e, Some(p.from), p.now).entry == Dest(p.to, BucketState(p.now, 1, false, 5), [p.from]);
    assert DestSlot(table, p.to, p.now, prox) == Some(|table|);
    assert AdmitDest(table, |table|, p.to, p.now) == table + [e];
    hide DestPass, DestSlot;
  }

  /** After the boot time has been set, the limiter is warmed up again half an hour later. */
  lemma WarmAfterBoot(s: Limiter, boot: u32, now: u32)
    ensures WarmedUp(Apply(s, SetBoot(boot)).admission, now) <==> WrappingSub(now, boot) >= 1_800_000
  {
  }

  // ---- The announcement ----

  /** The young nodes in the order of the list. */
  ghost function Recents(young: seq<Sighting>, now: u32): seq<u32> {
    if young == [] then []
    else (if Recent(young[0], now) then [young[0].id] else []) + Recents(young[1..], now)
  }

  ghost function FirstFour(young: seq<Sighting>, now: u32): seq<u32> {
    var all := Recents(young, now);
    if |all| <= 4 then all else all[..4]
  }

  /** A quarter of the channel at most, no relay limited, and half an hour since the last announcement. */
  ghost predicate MayAnnounce(s: Limiter, now: u32, util: real) {
    && util <= 25.0 && !Stands(s.unresolved, StoredClear(s.unresolved), now)
    && (forall i :: 0 <= i < |s.relays| ==> !Stands(s.relays[i].bucket, StoredClear(s.relays[i].bucket), now))
    && (s.announcements.ever ==> WrappingSub(now, s.announcements.last) >= 1_800_000)
  }

  lemma {:induction false} RecentsAppend(young: seq<Sighting>, e: Sighting, now: u32)
    ensures Recents(young + [e], now) == Recents(young, now) + (if Recent(e, now) then [e.id] else [])
  {
    var all := young + [e];
    hide Recent;
    if young == [] {
      assert all == [e] && all[1..] == [];
      assert Recents(all[1..], now) == [];
    } else {
      var rest := young[1..];
      assert all[0] == young[0] && all[1..] == rest + [e];
      RecentsAppend(rest, e, now);
    }
  }

  lemma {:induction false} ScanIsFirstFour(young: seq<Sighting>, now: u32, n: nat)
    requires n <= |young|
    ensures ScanIds(young, now, n) == FirstFour(young[..n], now)
  {
    if n > 0 {
      ScanIsFirstFour(young, now, n - 1);
      RecentsAppend(young[..n - 1], young[n - 1], now);
      assert young[..n] == young[..n - 1] + [young[n - 1]];
      hide Recents;
    }
  }

  lemma MayAnnounceIs(s: Limiter, now: u32, util: real)
    ensures MayAnnounce(s, now, util)
            <==> !(AnyRelayLimited(s, now) || util > 25.0
                   || (s.announcements.ever && WrappingSub(now, s.announcements.last) < ANNOUNCE_REFRACTORY_MS))
  {
    LimitedIs(s.unresolved, RELAY_CLEAR_FLOOR_MS, now);
    forall i | 0 <= i < |s.relays|
      ensures s.relays[i].bucket.LimitedAt(now, RELAY_CLEAR_FLOOR_MS)
              <==> Stands(s.relays[i].bucket, StoredClear(s.relays[i].bucket), now)
    {
      LimitedIs(s.relays[i].bucket, RELAY_CLEAR_FLOOR_MS, now);
    }
    hide Stands, StoredClear, BucketState.LimitedAt, WrappingSub;
  }

  lemma AnnounceByRule(s: Limiter, now: u32, util: real)
    ensures MaybeAnnounce(s, now, util).announcements
            == if MayAnnounce(s, now, util) then Announcements(now, true, Some(FirstFour(s.admission.young, now)))
               else s.announcements
  {
    MayAnnounceIs(s, now, util);
    ScanIsFirstFour(s.admission.young, now, |s.admission.young|);
    assert s.admission.young[..|s.admission.young|] == s.admission.young;
    hide MayAnnounce, AnyRelayLimited, ScanIds, FirstFour, WrappingSub;
  }

  /** Looking at a list does not change who is young in it. */
  lemma {:induction false} LookedRecents(a: seq<Sighting>, b: seq<Sighting>, now: u32)
    requires |a| == |b| && forall i :: 0 <= i < |a| ==> b[i] == a[i] || b[i] == a[i].Latch(now)
    ensures Recents(b, now) == Recents(a, now)
  {
    if a != [] { LookedRecents(a[1..], b[1..], now); }
  }

  /** The packet is charged to the young, and trips their bucket. */
  ghost predicate TripsYoung(s: Limiter, p: Packet) {
    && Governed(s, p) && !SilencedDest(s, p) && !FillsDest(s, p)
    && p.port.Some? && Warm(s.admission, p.now) && NewNode(s.admission, p.from, p.now)
    && ChangeRule(s.youngBucket, 48, 12, 1, p.now) == Tripped
  }

  /** The lists once the packet's originator has been noted. */
  ghost function Noted(s: Limiter, p: Packet): Admission {
    NoteOriginator(NoteBoot(s.admission, p.now), p.from, p.now)
  }

  lemma YoungAnnounces(s: Limiter, p: Packet)
    ensures ChargeYoung(s, p).state.announcements
            == if WarmedUp(s.admission, p.now) && IsYoung(s.admission, p.from, p.now)
                  && ChangeRule(s.youngBucket, 48, 12, 1, p.now) == Tripped && MayAnnounce(s, p.now, p.util) then
                 Announcements(p.now, true, Some(FirstFour(s.admission.young, p.now)))
               else s.announcements
  {
    var w := s.(admission := LatchWarm(s.admission, p.now));
    var y := w.(admission := LatchYoung(w.admission, p.from, p.now));
    var c := y.youngBucket.Charge(YOUNG_TRIP, YOUNG_CLEAR, 1, p.now);
    var charged := y.(youngBucket := c.bucket, lastEvent := WithChange(y.lastEvent, c.change, 0, YoungLimit));
    LatchIsNoLook(s.admission, p.from, p.now);
    ChargeByRule(s.youngBucket, YOUNG_TRIP, YOUNG_CLEAR, 1, p.now);
    AnnounceByRule(charged, p.now, p.util);
    LookedRecents(s.admission.young, y.admission.young, p.now);
    assert MayAnnounce(charged, p.now, p.util) == MayAnnounce(s, p.now, p.util) by { hide Stands, StoredClear; }
    hide IsYoung, LatchYoung, MaybeAnnounce, BucketState.Charge, ChangeRule, MayAnnounce, Recents, WithChange;
  }

  lemma RelayAnnouncesNothing(s: Limiter, p: Packet, prox: u32 -> Proximity)
    ensures ChargeRelay(s, p, prox).state.announcements == s.announcements
  {
    hide RelayPass, ChargeAirtime, BucketState.Reopen;
  }

  /**
   A packet makes an announcement exactly when it trips the bucket of the young and the channel is quiet enough:
   of the first four young nodes, its originator included if it was noted as one.
   */
  lemma AnnouncedExactly(s: Limiter, p: Packet, prox: u32 -> Proximity)
    requires Inv(s)
    ensures ShouldDrop(s, p, prox).state.announcements
            == if TripsYoung(s, p) && MayAnnounce(s, p.now, p.util) then
                 Announcements(p.now, true, Some(FirstFour(Noted(s, p).young, p.now)))
               else s.announcements
  {
    if Governed(s, p) {
      var booted := s.(lastEvent := None, admission := NoteBoot(s.admission, p.now));
      var d := ChargeDest(booted, p, prox);
      DestDecides(booted, p, prox);
      DestStopsReads(booted, s, p);
      DestStopsIs(s, p);
      assert d.state == booted.(dests := d.state.dests, lastEvent := d.state.lastEvent);
      SenderAnnounces(s, d.state, p, prox);
      hide ChargeDest, ChargeSender, DestStops, SilencedDest, FillsDest, MayAnnounce, FirstFour, Noted, ChangeRule,
           NewNode, Warm, ToLimitedDest, Inv;
    }
  }

  lemma SenderAnnounces(s: Limiter, t: Limiter, p: Packet, prox: u32 -> Proximity)
    requires AdmissionOk(s.admission) && t.admission == NoteBoot(s.admission, p.now)
    requires t.youngBucket == s.youngBucket && t.relays == s.relays && t.unresolved == s.unresolved
    requires t.announcements == s.announcements
    ensures ChargeSender(t, p, prox).state.announcements
            == if p.port.Some? && Warm(s.admission, p.now) && NewNode(s.admission, p.from, p.now)
                  && ChangeRule(s.youngBucket, 48, 12, 1, p.now) == Tripped && MayAnnounce(s, p.now, p.util) then
                 Announcements(p.now, true, Some(FirstFour(Noted(s, p).young, p.now)))
               else s.announcements
  {
    var decoded := PortKindOf(p.port) != PortKind.Unknown;
    assert decoded <==> p.port.Some?;
    var noted := if decoded then t.(admission := Noted(s, p)) else t;
    var o := ChargeOriginator(noted, p, prox).state;
    var y := if decoded then ChargeYoung(o, p).state else o;
    RelayAnnouncesNothing(y, p, prox);
    hide OriginatorPass, MayAnnounce, FirstFour, ChangeRule, IsYoung, NoteOriginator, ChargeRelay;
    assert o.announcements == s.announcements && o.youngBucket == s.youngBucket && o.admission == noted.admission;
    assert MayAnnounce(o, p.now, p.util) == MayAnnounce(s, p.now, p.util) by { MayAnnounceReads(o, s, p.now, p.util); }
    if decoded {
      YoungAnnounces(o, p);
      NotedIsYoung(s.admission, p.from, p.now);
    }
    hide ChargeYoung, NewNode, Warm;
  }

  lemma MayAnnounceReads(s: Limiter, t: Limiter, now: u32, util: real)
    requires s.relays == t.relays && s.unresolved == t.unresolved && s.announcements == t.announcements
    ensures MayAnnounce(s, now, util) == MayAnnounce(t, now, util)
  {
    hide Stands, StoredClear;
  }

  /** After noting, a node counts as young exactly if it was a newcomer. */
  lemma NotedIsYoung(a: Admission, id: u32, now: u32)
    requires AdmissionOk(a)
    ensures var n := NoteOriginator(NoteBoot(a, now), id, now);
            WarmedUp(n, now) && IsYoung(n, id, now) <==> Warm(a, now) && NewNode(a, id, now)
  {
    var b := NoteBoot(a, now);
    assert AdmissionOk(b) && WarmedUp(b, now) == WarmedUp(a, now) && Newcomer(b, id, now) == Newcomer(a, id, now);
    NewNodeIs(a, id, now);
    if WarmedUp(a, now) { YoungOnceNoted(b, id, now); } else { NotingWarmsNobody(b, id, now); }
    hide NoteOriginator, IsYoung, Newcomer, NewNode, WarmedUp, Warm;
  }

  // ---- The last event ----

  /** A change of a bucket replaces the event before it. */
  ghost function Told(before: Option<Event>, change: Change, id: u32, kind: LimitKind): Option<Event> {
    if change == Tripped then Some(Trip(id, kind)) else if change == Cleared then Some(Clear(id, kind)) else before
  }

  ghost function KindOf(port: Option<u32>): LimitKind {
    OfPort(if port.None? then PortKind.Unknown
           else if port.value in {1, 7} then Text
           else if port.value in {5, 70, 88} then Routing
           else Other)
  }

  /** What the relay pass tells. */
  ghost function RelayTold(before: Option<Event>, s: Limiter, p: Packet, prox: u32 -> Proximity): Option<Event> {
    var named := NamedRelay(s.node, p.resolvedRelay);
    if named.Some? then Told(before, RelayPass(s.relays, named.value, p, prox).change, named.value, RelayLimit)
    else if p.graphEstablished then
      Told(before, ChargeAirtime(s.unresolved.Reopen(p.now), p).change, 0, UnresolvedLimit)
    else before
  }

  /** The passes in their order, each telling of its own node. */
  ghost function EventRule(s: Limiter, p: Packet, prox: u32 -> Proximity): Option<Event> {
    if !Governed(s, p) then None
    else
      var atDest := if ToOneNode(p) then DestTablePass(s.dests, p, prox).change else Unchanged;
      if SilencedDest(s, p) || FillsDest(s, p) then
        if atDest == Tripped then Some(Trip(p.to, DestLimit)) else Some(DestDrop(p.to))
      else
        var one := Told(None, atDest, p.to, DestLimit);
        var two := Told(one, OriginatorPass(s.originators, p, prox).change, p.from, KindOf(p.port));
        var three := if p.port.Some? && Warm(s.admission, p.now) && NewNode(s.admission, p.from, p.now) then
                       Told(two, ChangeRule(s.youngBucket, 48, 12, 1, p.now), 0, YoungLimit)
                     else two;
        if p.candidate && !SenderRefused(s, p) then RelayTold(three, s, p, prox) else three
  }

  lemma ToldIs(before: Option<Event>, change: Change, id: u32, kind: LimitKind)
    ensures WithChange(before, change, id, kind) == Told(before, change, id, kind)
  {
  }

  lemma YoungTells(s: Limiter, p: Packet)
    ensures ChargeYoung(s, p).state.lastEvent
            == if WarmedUp(s.admission, p.now) && IsYoung(s.admission, p.from, p.now) then
                 Told(s.lastEvent, ChangeRule(s.youngBucket, 48, 12, 1, p.now), 0, YoungLimit)
               else s.lastEvent
  {
    LatchIsNoLook(s.admission, p.from, p.now);
    ChargeByRule(s.youngBucket, YOUNG_TRIP, YOUNG_CLEAR, 1, p.now);
    var change := s.youngBucket.Charge(YOUNG_TRIP, YOUNG_CLEAR, 1, p.now).change;
    ToldIs(s.lastEvent, change, 0, YoungLimit);
    hide IsYoung, LatchYoung, BucketState.Charge, ChangeRule, ScanIds, ScanLatch, AnyRelayLimited;
  }

  lemma RelayTells(s: Limiter, p: Packet, prox: u32 -> Proximity)
    ensures ChargeRelay(s, p, prox).state.lastEvent == RelayTold(s.lastEvent, s, p, prox)
  {
    hide RelayPass, ChargeAirtime, BucketState.Reopen;
  }

  /** The event after the sender passes, given the one before them. */
  ghost function SenderTold(before: Option<Event>, s: Limiter, p: Packet, prox: u32 -> Proximity): Option<Event> {
    var two := Told(before, OriginatorPass(s.originators, p, prox).change, p.from, KindOf(p.port));
    if p.port.Some? && Warm(s.admission, p.now) && NewNode(s.admission, p.from, p.now) then
      Told(two, ChangeRule(s.youngBucket, 48, 12, 1, p.now), 0, YoungLimit)
    else two
  }

  lemma SenderTells(s: Limiter, t: Limiter, p: Packet, prox: u32 -> Proximity)
    requires AdmissionOk(s.admission)
    requires t == s.(admission := NoteBoot(s.admission, p.now), dests := t.dests, lastEvent := t.lastEvent)
    ensures var told := SenderTold(t.lastEvent, s, p, prox);
            ChargeSender(t, p, prox).state.lastEvent
            == if p.candidate && !OriginatorStops(s, p) && !YoungStops(s, p) then RelayTold(told, s, p, prox) else told
  {
    var decoded := PortKindOf(p.port) != PortKind.Unknown;
    assert (decoded <==> p.port.Some?) && OfPort(PortKindOf(p.port)) == KindOf(p.port);
    var noted := if decoded then t.(admission := Noted(s, p)) else t;
    var o := ChargeOriginator(noted, p, prox);
    var change := OriginatorPass(s.originators, p, prox).change;
    ToldIs(t.lastEvent, change, p.from, KindOf(p.port));
    OriginatorDecides(s.originators, p, prox);
    assert o.drop <==> OriginatorStops(s, p);
    hide OriginatorPass, ChangeRule, IsYoung, NoteOriginator, ChargeRelay, NoteBoot, Refuses;
    assert o.state.lastEvent == Told(t.lastEvent, change, p.from, KindOf(p.port));
    assert o.state.youngBucket == s.youngBucket && o.state.admission == noted.admission;
    assert o.state.relays == s.relays && o.state.unresolved == s.unresolved && o.state.node == s.node;
    if decoded {
      YoungTells(o.state, p);
      NotedIsYoung(s.admission, p.from, p.now);
      YoungReads(o.state, s.(admission := noted.admission), p);
      YoungDecides(s, p);
      YoungFrame(o.state, p);
      YoungUnresolved(o.state, p);
    }
    var y := if decoded then ChargeYoung(o.state, p) else Decision(o.state, false);
    assert y.drop <==> YoungStops(s, p);
    hide ChargeYoung, NewNode, Warm, OriginatorStops, YoungStops, Told, ChargeOriginator;
    RelayTells(y.state, p, prox);
    hide RelayPass, ChargeAirtime, BucketState.Reopen, NamedRelay;
  }

  lemma DestTells(s: Limiter, p: Packet, prox: u32 -> Proximity)
    requires s.lastEvent == None
    ensures ChargeDest(s, p, prox).state
            == s.(dests := ChargeDest(s, p, prox).state.dests,
                  lastEvent := Told(None, if ToOneNode(p) then DestTablePass(s.dests, p, prox).change else Unchanged,
                                    p.to, DestLimit))
  {
    if ToOneNode(p) { ToldIs(None, DestTablePass(s.dests, p, prox).change, p.to, DestLimit); }
    hide DestTablePass;
  }

  /** After every packet the last event is the last one told: by destination, originator, the young or the relay. */
  lemma EventByRule(s: Limiter, p: Packet, prox: u32 -> Proximity)
    requires Inv(s)
    ensures ShouldDrop(s, p, prox).state.lastEvent == EventRule(s, p, prox)
  {
    if Governed(s, p) {
      var booted := s.(lastEvent := None, admission := NoteBoot(s.admission, p.now));
      var d := ChargeDest(booted, p, prox);
      DestDecides(booted, p, prox);
      DestStopsReads(booted, s, p);
      DestStopsIs(s, p);
      DestTells(booted, p, prox);
      SenderTells(s, d.state, p, prox);
      OriginatorStopsIs(s, p);
      YoungStopsIs(s, p);
      hide ChargeDest, ChargeSender, DestStops, SilencedDest, FillsDest, SilencedOriginator, FillsOriginator,
           OriginatorStops, YoungStops, YoungRefused, RelayTold, ChangeRule, NewNode, Warm, DestTablePass,
           OriginatorPass, NoteBoot, ToLimitedDest, Inv;
    }
  }
}
