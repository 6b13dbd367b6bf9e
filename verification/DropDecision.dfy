/**
 The drop decision read off the state before the packet: exactly when `should_drop` drops, and exactly when the
 query that charges nothing predicts otherwise.
 */
module DropDecision {
  import opened Machine
  import opened Bucket
  import opened Limiter
  import opened LimiterRuns

  // ---- Guards on the state before the packet ----

  /** The bucket is limited, or full but for this charge. */
  predicate Refuses(b: BucketState, trip: u32, clear: u32, amount: u32, now: u32) {
    || (b.limited && (b.Windows(now) == 0 || (b.Windows(now) == 1 && b.count >= clear)))
    || (if b.Windows(now) == 0 then b.count else 0) + amount >= trip
  }

  lemma ChargeRefused(b: BucketState, trip: u32, clear: u32, amount: u32, now: u32)
    requires clear > 0
    ensures b.Charge(trip, clear, amount, now).refused <==> Refuses(b, trip, clear, amount, now)
  {
  }

  /** A destination under a ban, or one charge short of a trip by diverse senders. */
  predicate DestStops(s: Limiter, p: Packet) {
    && p.onDefault && IsUnicast(p.to)
    && (|| OriginatorLimitedAt(s.originators, p.to, p.now)
        || var found := Find(DestIds(s.dests), p.to);
           found.Some? && var e := s.dests[found.value];
             if ChargesDest(p) then Refuses(e.bucket, DestTrip(e, p), DEST_CLEAR, 1, p.now)
             else e.bucket.LimitedAt(p.now, DEST_CLEAR))
  }

  /** The trip threshold of a destination, counting the sender at hand. */
  function DestTrip(e: Dest, p: Packet): u32 {
    var known := if WrappingSub(p.now, e.bucket.windowStart) >= WINDOW_MS then [] else e.senders;
    if e.bucket.limited || |NoteSender(known, p.from)| >= DEST_MIN_SENDERS then DEST_TRIP else U32_MAX
  }

  predicate OriginatorStops(s: Limiter, p: Packet) {
    var kind := PortKindOf(p.port);
    var found := Find(OriginatorIds(s.originators), p.from);
    found.Some? && Refuses(s.originators[found.value].Get(kind), TripOf(kind), ClearOf(kind), 1, p.now)
  }

  /** Not established: unknown, or known for less than half an hour. */
  predicate Newcomer(a: Admission, id: u32, now: u32) {
    var found := Find(YoungIds(a.young), id);
    if found.Some? then a.young[found.value].Active(now) else id !in a.alumni
  }

  predicate YoungStops(s: Limiter, p: Packet) {
    && PortKindOf(p.port) != Unknown && WarmedUp(s.admission, p.now) && Newcomer(s.admission, p.from, p.now)
    && Refuses(s.youngBucket, YOUNG_TRIP, YOUNG_CLEAR, 1, p.now)
  }

  predicate SenderStops(s: Limiter, p: Packet) { DestStops(s, p) || OriginatorStops(s, p) || YoungStops(s, p) }

  /** A relay's bucket; a relay without one gets a new one, unless the table is full of bans. */
  predicate RelayStops(s: Limiter, p: Packet) {
    var (trip, clear) := RelayBudgets(RelayAirtime(p), p.util);
    var named := NamedRelay(s.node, p.resolvedRelay);
    if named.Some? then
      var found := Find(RelayIds(s.relays), named.value);
      if found.Some? then Refuses(s.relays[found.value].bucket, trip, clear, RelayAirtime(p), p.now)
      else RelayRoom(s.relays, p.now) && RelayAirtime(p) >= trip
    else p.graphEstablished && Refuses(s.unresolved, trip, clear, RelayAirtime(p), p.now)
  }

  predicate RelayRoom(table: seq<Relay>, now: u32) {
    |table| < MAX_RELAYS || exists i :: 0 <= i < |table| && !table[i].bucket.LimitedAt(now, RELAY_CLEAR_FLOOR_MS)
  }

  predicate Drops(s: Limiter, p: Packet) {
    !Exempt(s, p) && (SenderStops(s, p) || (p.candidate && RelayStops(s, p)))
  }

  // ---- Each pass decides by its guard ----

  lemma RelayBudgetsInRange(air: u32, util: real)
    ensures RELAY_TRIP_FLOOR_MS <= RelayBudgets(air, util).0 <= RELAY_TRIP_CEIL_MS
    ensures RELAY_CLEAR_FLOOR_MS <= RelayBudgets(air, util).1 < RelayBudgets(air, util).0
  {
  }

  lemma DestDecides(s: Limiter, p: Packet, prox: u32 -> Proximity)
    requires DestsOk(s.dests)
    ensures var d := ChargeDest(s, p, prox); (d.drop || ToLimitedDest(d.state, p)) <==> DestStops(s, p)
  {
    if p.onDefault && IsUnicast(p.to) {
      DestTableDecides(s.dests, p, prox);
      hide DestTablePass, DestTrip, ChargesDest, BucketState.LimitedAt;
    }
  }

  /** Without a refusal the destination is not limited afterwards either. */
  lemma DestTableDecides(table: seq<Dest>, p: Packet, prox: u32 -> Proximity)
    requires DestsOk(table)
    ensures var c := DestTablePass(table, p, prox);
            var found := Find(DestIds(table), p.to);
            && (c.refused <==>
                  found.Some? && var e := table[found.value];
                    if ChargesDest(p) then Refuses(e.bucket, DestTrip(e, p), DEST_CLEAR, 1, p.now)
                    else e.bucket.LimitedAt(p.now, DEST_CLEAR))
            && (DestLimitedAt(c.table, p.to, p.now) ==> c.refused)
  {
    var ids := DestIds(table);
    var found := Find(ids, p.to);
    var c := DestTablePass(table, p, prox);
    if ChargesDest(p) {
      var slot := DestSlot(table, p.to, p.now, prox);
      if slot.Some? {
        var admitted := AdmitDest(table, slot.value, p.to, p.now);
        var e := admitted[slot.value];
        assert slot.value < |table| ==> ids[slot.value] == table[slot.value].id;
        assert found.None? ==> e == FreshDest(p.to, p.now);
        assert found.Some? ==> e == table[found.value];
        ChargeRefused(e.bucket, DestTrip(e, p), DEST_CLEAR, 1, p.now);
        SlotKeepsIds(ids, p.to, DestRanks(table, p.now, prox), MAX_DESTS);
        assert DestIds(c.table) == Place(ids, slot.value, p.to);
        FoundAt(c.table, slot.value, p.to);
      }
    } else if found.Some? {
      var e := table[found.value];
      assert DestIds(c.table) == ids;
      FoundAt(c.table, found.value, p.to);
      ChargeRefused(e.bucket, if e.bucket.limited then DEST_TRIP else U32_MAX, DEST_CLEAR, 0, p.now);
    }
  }

  lemma FoundAt(table: seq<Dest>, k: nat, id: u32)
    requires k < |table| && Distinct(DestIds(table)) && table[k].id == id
    ensures Find(DestIds(table), id) == Some(k)
  {
    assert DestIds(table)[k] == id;
  }

  lemma OriginatorDecides(table: seq<Originator>, p: Packet, prox: u32 -> Proximity)
    ensures OriginatorPass(table, p, prox).refused <==>
            var kind := PortKindOf(p.port); var found := Find(OriginatorIds(table), p.from);
            found.Some? && Refuses(table[found.value].Get(kind), TripOf(kind), ClearOf(kind), 1, p.now)
  {
    var kind, ids := PortKindOf(p.port), OriginatorIds(table);
    var slot := OriginatorSlot(table, p.from, p.now, prox);
    if slot.Some? {
      var e := AdmitOriginator(table, slot.value, p.from, p.now)[slot.value];
      assert slot.value < |table| ==> ids[slot.value] == table[slot.value].id;
      assert Find(ids, p.from).None? ==> e.Get(kind) == Fresh(p.now);
      assert Find(ids, p.from).Some? ==> e.Get(kind) == table[slot.value].Get(kind);
      ChargeRefused(e.Get(kind), TripOf(kind), ClearOf(kind), 1, p.now);
    }
  }

  /** After it was noted, a node is young exactly when it was a newcomer: a first contact always is. */
  lemma YoungOnceNoted(a: Admission, id: u32, now: u32)
    requires AdmissionOk(a) && WarmedUp(a, now)
    ensures var n := NoteOriginator(a, id, now);
            WarmedUp(n, now) && (IsYoung(n, id, now) <==> Newcomer(a, id, now))
  {
    if id in YoungIds(a.young) {
      SeenOnceNoted(a, id, now);
    } else if id !in a.alumni {
      StrangerOnceNoted(a, id, now);
    }
  }

  lemma SeenOnceNoted(a: Admission, id: u32, now: u32)
    requires AdmissionOk(a) && WarmedUp(a, now) && id in YoungIds(a.young)
    ensures var n := NoteOriginator(a, id, now);
            WarmedUp(n, now) && (IsYoung(n, id, now) <==> a.young[Find(YoungIds(a.young), id).value].Active(now))
  {
    var i := Find(YoungIds(a.young), id).value;
    var latched := a.(young := a.young[i := a.young[i].Latch(now)]);
    assert a.young[i].id == id && YoungIds(latched.young) == YoungIds(a.young);
    if !a.young[i].Active(now) {
      LatchKept(a, latched.young);
      RemoveYoungKept(latched, i);
    }
  }

  lemma StrangerOnceNoted(a: Admission, id: u32, now: u32)
    requires AdmissionOk(a) && WarmedUp(a, now) && id !in YoungIds(a.young) && id !in a.alumni
    ensures var n := NoteOriginator(a, id, now); WarmedUp(n, now) && IsYoung(n, id, now)
  {
    var w := LatchWarm(a, now);
    assert ExpireIfOld(a, id, now) == a;
    var aged := FirstAged(w.young, now);
    if |w.young| < MAX_YOUNG {
      InsertedIsYoung(w, id, now);
    } else if aged.Some? {
      var kept := AddAlumni(w, w.young[aged.value].id);
      RemoveYoungKept(w, aged.value);
      assert YoungIds(w.young)[aged.value] == w.young[aged.value].id;
      InsertedIsYoung(kept.(young := SwapRemove(kept.young, aged.value)), id, now);
    } else {
      AllCounted(w.young, now);
    }
  }

  lemma InsertedIsYoung(a: Admission, id: u32, now: u32)
    requires |a.young| < MAX_YOUNG && id !in YoungIds(a.young)
    ensures IsYoung(InsertYoung(a, id, now), id, now)
  {
    var young := InsertYoung(a, id, now).young;
    assert YoungIds(young) == YoungIds(a.young) + [id];
    assert YoungIds(young)[..|a.young|] == YoungIds(a.young);
    FindIs(YoungIds(young), id, |a.young|);
    assert young[|a.young|] == Sighting(id, now, false) && WrappingSub(now, now) == 0;
  }

  lemma YoungDecides(s: Limiter, p: Packet)
    requires AdmissionOk(s.admission) && PortKindOf(p.port) != Unknown
    ensures ChargeYoung(s.(admission := NoteOriginator(NoteBoot(s.admission, p.now), p.from, p.now)), p).drop
            <==> YoungStops(s, p)
  {
    var b := NoteBoot(s.admission, p.now);
    assert WarmedUp(b, p.now) == WarmedUp(s.admission, p.now) && AdmissionOk(b);
    var n := NoteOriginator(b, p.from, p.now);
    ChargeRefused(s.youngBucket, YOUNG_TRIP, YOUNG_CLEAR, 1, p.now);
    if WarmedUp(s.admission, p.now) {
      YoungOnceNoted(b, p.from, p.now);
    } else {
      NotingWarmsNobody(b, p.from, p.now);
    }
    hide NoteOriginator, IsYoung, LatchYoung, MaybeAnnounce, Refuses, Newcomer, BucketState.Charge;
    assert IsYoung(LatchWarm(n, p.now), p.from, p.now) <==> IsYoung(n, p.from, p.now) by { LatchIsNoLook(n, p.from, p.now); }
  }

  lemma LatchIsNoLook(a: Admission, id: u32, now: u32)
    ensures IsYoung(LatchWarm(a, now), id, now) <==> IsYoung(a, id, now)
  {
  }

  lemma NotingWarmsNobody(a: Admission, id: u32, now: u32)
    requires !WarmedUp(a, now)
    ensures !WarmedUp(NoteOriginator(a, id, now), now)
  {
  }

  lemma RelayDecides(s: Limiter, p: Packet, prox: u32 -> Proximity)
    ensures ChargeRelay(s, p, prox).drop <==> RelayStops(s, p)
  {
    RelayBudgetsInRange(RelayAirtime(p), p.util);
    var (trip, clear) := RelayBudgets(RelayAirtime(p), p.util);
    var named := NamedRelay(s.node, p.resolvedRelay);
    if named.Some? {
      RelayPassDecides(s.relays, named.value, p, prox);
    } else {
      ChargeRefused(s.unresolved.Reopen(p.now), trip, clear, RelayAirtime(p), p.now);
    }
    hide RelayPass, RelayBudgets;
  }

  lemma RelayPassDecides(table: seq<Relay>, id: u32, p: Packet, prox: u32 -> Proximity)
    ensures RelayPass(table, id, p, prox).refused <==>
            var (trip, clear) := RelayBudgets(RelayAirtime(p), p.util);
            var found := Find(RelayIds(table), id);
            if found.Some? then Refuses(table[found.value].bucket, trip, clear, RelayAirtime(p), p.now)
            else RelayRoom(table, p.now) && RelayAirtime(p) >= trip
  {
    RelayBudgetsInRange(RelayAirtime(p), p.util);
    var (trip, clear) := RelayBudgets(RelayAirtime(p), p.util);
    var ids, slot := RelayIds(table), RelaySlot(table, id, p.now, prox);
    if Find(ids, id).None? { RoomIsSlot(table, id, p.now, prox); }
    if slot.Some? {
      var e := AdmitRelay(table, slot.value, id, p.now)[slot.value];
      assert slot.value < |table| ==> ids[slot.value] == table[slot.value].id;
      assert Find(ids, id).None? ==> e == Relay(id, Fresh(p.now));
      assert Find(ids, id).Some? ==> e == table[slot.value];
      ChargeRefused(e.bucket, trip, clear, RelayAirtime(p), p.now);
      hide RelayBudgets, RelayAirtime, RelayRoom;
    }
  }

  lemma RoomIsSlot(table: seq<Relay>, id: u32, now: u32, prox: u32 -> Proximity)
    requires Find(RelayIds(table), id).None?
    ensures RelaySlot(table, id, now, prox).Some? <==> RelayRoom(table, now)
  {
    var ranks := RelayRanks(table, now, prox);
    assert forall i :: 0 <= i < |table| ==> ranks[i].limited == table[i].bucket.LimitedAt(now, RELAY_CLEAR_FLOOR_MS);
    assert IsEvictionChoice(ranks, EvictionCandidate(ranks));
  }

  // ---- The decision ----

  lemma SenderDecides(s: Limiter, p: Packet, prox: u32 -> Proximity)
    requires AdmissionOk(s.admission)
    ensures var d := ChargeSender(s.(admission := NoteBoot(s.admission, p.now)), p, prox);
            d.drop <==> OriginatorStops(s, p) || YoungStops(s, p) || (p.candidate && RelayStops(s, p))
  {
    var b := s.(admission := NoteBoot(s.admission, p.now));
    var decoded := PortKindOf(p.port) != Unknown;
    var noted := if decoded then b.(admission := NoteOriginator(b.admission, p.from, p.now)) else b;
    var o := ChargeOriginator(noted, p, prox);
    OriginatorDecides(s.originators, p, prox);
    hide OriginatorPass, Refuses, NoteOriginator, NoteBoot;
    assert o.drop <==> OriginatorStops(s, p);
    if decoded {
      YoungReads(o.state, s.(admission := noted.admission), p);
      YoungDecides(s, p);
      YoungFrame(o.state, p);
    }
    var y := if decoded then ChargeYoung(o.state, p) else Decision(o.state, false);
    assert y.drop <==> YoungStops(s, p);
    assert y.state.relays == s.relays && y.state.unresolved == s.unresolved && y.state.node == s.node by {
      if decoded { YoungUnresolved(o.state, p); }
    }
    hide ChargeYoung, ChargeOriginator, YoungStops, OriginatorStops;
    RelayDecides(y.state, p, prox);
    assert RelayStops(y.state, p) <==> RelayStops(s, p);
  }

  /** The young pass reads the admission lists and the shared bucket only. */
  lemma YoungReads(s: Limiter, t: Limiter, p: Packet)
    requires s.admission == t.admission && s.youngBucket == t.youngBucket
    ensures ChargeYoung(s, p).drop == ChargeYoung(t, p).drop
  {
    hide IsYoung, LatchYoung, MaybeAnnounce, BucketState.Charge;
  }

  lemma YoungUnresolved(s: Limiter, p: Packet)
    ensures ChargeYoung(s, p).state.unresolved == s.unresolved
  {
    hide IsYoung, LatchYoung, BucketState.Charge;
  }

  /**
   A packet is dropped exactly when one of these guards holds of the state before it: the destination is banned or
   about to be, the originator's bucket or the shared one refuses one charge more, or the relay's bucket refuses
   the packet's airtime. How near anybody is in the graph plays no part.
   */
  lemma DropsExactly(s: Limiter, p: Packet, prox: u32 -> Proximity)
    requires Inv(s)
    ensures ShouldDrop(s, p, prox).drop <==> Drops(s, p)
  {
    if !Exempt(s, p) {
      hide Refuses, OriginatorLimitedAt, BucketState.LimitedAt, Newcomer, RelayBudgets, DestTablePass, DestTrip;
      var booted := s.(lastEvent := None, admission := NoteBoot(s.admission, p.now));
      var d := ChargeDest(booted, p, prox);
      DestDecides(booted, p, prox);
      assert DestStops(booted, p) <==> DestStops(s, p);
      assert d.state == booted.(dests := d.state.dests, lastEvent := d.state.lastEvent);
      var t := s.(dests := d.state.dests, lastEvent := d.state.lastEvent);
      SenderDecides(t, p, prox);
      assert t.(admission := NoteBoot(t.admission, p.now)) == d.state;
      hide ChargeSender, ChargeDest, DestStops, NoteBoot;
      assert OriginatorStops(t, p) == OriginatorStops(s, p) && YoungStops(t, p) == YoungStops(s, p)
             && RelayStops(t, p) == RelayStops(s, p);
    }
  }

  // ---- What the packet does to the tables ----

  /** The originator pass is made exactly unless the destination stops the packet, and decides with the others. */
  lemma OriginatorStep(s: Limiter, p: Packet, prox: u32 -> Proximity)
    requires Inv(s) && !Exempt(s, p)
    ensures var d := ShouldDrop(s, p, prox);
            && d.state.originators == (if DestStops(s, p) then s.originators else OriginatorPass(s.originators, p, prox).table)
            && (DestStops(s, p) || OriginatorPass(s.originators, p, prox).refused ==> d.drop)
  {
    var booted := s.(lastEvent := None, admission := NoteBoot(s.admission, p.now));
    var d := ChargeDest(booted, p, prox);
    DestDecides(booted, p, prox);
    assert DestStops(booted, p) <==> DestStops(s, p);
    assert d.state.originators == s.originators;
    SenderOriginators(d.state, p, prox);
    hide ChargeDest, ChargeSender, DestStops, OriginatorPass, ToLimitedDest, Inv, NoteBoot;
  }

  lemma SenderOriginators(s: Limiter, p: Packet, prox: u32 -> Proximity)
    ensures ChargeSender(s, p, prox).state.originators == OriginatorPass(s.originators, p, prox).table
    ensures OriginatorPass(s.originators, p, prox).refused ==> ChargeSender(s, p, prox).drop
  {
    SenderFrames(s, p, prox);
    if OriginatorPass(s.originators, p, prox).refused { SenderRefuses(s, p, prox); }
  }

  lemma SenderRefuses(s: Limiter, p: Packet, prox: u32 -> Proximity)
    requires OriginatorPass(s.originators, p, prox).refused
    ensures ChargeSender(s, p, prox).drop
  {
    hide OriginatorPass, NoteOriginator, ChargeYoung, ChargeRelay;
  }

  /** The limiter as the relay pass meets it: relays, the shared bucket and the node as they were. */
  ghost predicate SameRelays(s: Limiter, y: Limiter) {
    y.relays == s.relays && y.unresolved == s.unresolved && y.node == s.node
  }

  /** The relay pass is made exactly for candidates that nothing stops before it, and then decides. */
  lemma RelayStep(s: Limiter, p: Packet, prox: u32 -> Proximity) returns (y: Limiter)
    requires Inv(s) && !Exempt(s, p)
    ensures SameRelays(s, y)
    ensures var d := ShouldDrop(s, p, prox);
            if p.candidate && !SenderStops(s, p) then d == ChargeRelay(y, p, prox) else SameRelays(s, d.state)
  {
    var booted := s.(lastEvent := None, admission := NoteBoot(s.admission, p.now));
    var d := ChargeDest(booted, p, prox);
    DestDecides(booted, p, prox);
    assert DestStops(booted, p) <==> DestStops(s, p);
    assert d.state == booted.(dests := d.state.dests, lastEvent := d.state.lastEvent);
    if DestStops(s, p) {
      y := s;
      hide ChargeDest;
    } else {
      var t := s.(dests := d.state.dests, lastEvent := d.state.lastEvent);
      y := RelayPassMet(t, p, prox);
      assert t.(admission := NoteBoot(t.admission, p.now)) == d.state;
      hide ChargeDest, NoteBoot, ChargeSender, DestStops;
      assert OriginatorStops(t, p) == OriginatorStops(s, p) && YoungStops(t, p) == YoungStops(s, p);
    }
  }

  lemma RelayPassMet(s: Limiter, p: Packet, prox: u32 -> Proximity) returns (y: Limiter)
    requires AdmissionOk(s.admission)
    ensures SameRelays(s, y)
    ensures var d := ChargeSender(s.(admission := NoteBoot(s.admission, p.now)), p, prox);
            if p.candidate && !OriginatorStops(s, p) && !YoungStops(s, p) then d == ChargeRelay(y, p, prox)
            else SameRelays(s, d.state)
  {
    var b := s.(admission := NoteBoot(s.admission, p.now));
    var decoded := PortKindOf(p.port) != Unknown;
    var noted := if decoded then b.(admission := NoteOriginator(b.admission, p.from, p.now)) else b;
    var o := ChargeOriginator(noted, p, prox);
    OriginatorDecides(s.originators, p, prox);
    hide OriginatorPass, Refuses, NoteOriginator, NoteBoot;
    assert o.drop <==> OriginatorStops(s, p);
    if decoded {
      YoungReads(o.state, s.(admission := noted.admission), p);
      YoungDecides(s, p);
      YoungFrame(o.state, p);
      YoungUnresolved(o.state, p);
    }
    y := if decoded then ChargeYoung(o.state, p).state else o.state;
    hide ChargeYoung, YoungStops, OriginatorStops, ChargeRelay;
  }

  // ---- Where the query predicts otherwise ----

  /** The bucket a rebroadcast candidate is charged to, if any. */
  ghost function RelayBucket(s: Limiter, p: Packet): Option<BucketState> {
    var named := NamedRelay(s.node, p.resolvedRelay);
    if named.Some? then
      var found := Find(RelayIds(s.relays), named.value);
      if found.Some? then Some(s.relays[found.value].bucket) else None
    else if p.graphEstablished then Some(s.unresolved)
    else None
  }

  /** The ban also outlives the budgets the packet itself brings: its airtime and the channel's use. */
  ghost predicate RelayBanStands(b: BucketState, p: Packet) {
    var (trip, clear) := RelayBudgets(RelayAirtime(p), p.util);
    b.Windows(p.now) == 0 || b.count >= clear || RelayAirtime(p) >= trip
  }

  /** A relay the query reports as limited is refused exactly when the ban stands. */
  lemma BanStandsExactly(s: Limiter, p: Packet)
    requires RelayWouldDrop(s, p)
    ensures RelayBucket(s, p).Some? && (RelayStops(s, p) <==> RelayBanStands(RelayBucket(s, p).value, p))
  {
    RelayBudgetsInRange(RelayAirtime(p), p.util);
    hide RelayBudgets;
  }

  /** Such a candidate is dropped exactly when something stops it before the relay pass or the ban stands. */
  lemma CandidateDroppedExactly(s: Limiter, p: Packet, prox: u32 -> Proximity)
    requires Inv(s) && p.candidate && !Exempt(s, p) && RelayWouldDrop(s, p)
    ensures RelayBucket(s, p).Some?
    ensures ShouldDrop(s, p, prox).drop <==> SenderStops(s, p) || RelayBanStands(RelayBucket(s, p).value, p)
  {
    DropsExactly(s, p, prox);
    BanStandsExactly(s, p);
    hide ShouldDrop, SenderStops, RelayStops, RelayBanStands, RelayWouldDrop, RelayBucket, Inv;
  }

  /**
   The query predicts a drop that does not happen exactly for a rebroadcast candidate which nothing stops before
   the relay pass, and whose relay's ban is lifted by the budgets the packet itself brings.
   */
  lemma OverPredictsExactly(s: Limiter, p: Packet, prox: u32 -> Proximity)
    requires Inv(s)
    ensures WouldDrop(s, p).drop && !ShouldDrop(s, p, prox).drop <==>
            && !Exempt(s, p) && p.candidate && RelayWouldDrop(s, p) && !SenderStops(s, p)
            && !RelayBanStands(RelayBucket(s, p).value, p)
  {
    DropsExactly(s, p, prox);
    if RelayWouldDrop(s, p) { BanStandsExactly(s, p); }
    if WouldDropSender(s, p) { SenderPredictionHolds(s, p, prox); }
    QueryIsSenderOrRelay(s, p);
    hide ShouldDrop, WouldDrop, SenderStops, RelayStops, RelayBanStands, WouldDropSender, Inv;
  }

  lemma QueryIsSenderOrRelay(s: Limiter, p: Packet)
    ensures WouldDrop(s, p).drop <==>
            WouldDropSender(s, p) || (!Exempt(s, p) && p.candidate && RelayWouldDrop(s, p))
  {
    var w := s.(admission := LatchWarm(s.admission, p.now));
    var y := w.(admission := LatchYoung(w.admission, p.from, p.now));
    assert RelayWouldDrop(w, p) == RelayWouldDrop(s, p) && RelayWouldDrop(y, p) == RelayWouldDrop(s, p);
    LatchIsNoLook(s.admission, p.from, p.now);
    hide IsYoung, LatchYoung, RelayWouldDrop, ToLimitedDest, OriginatorWouldDrop, BucketState.LimitedAt;
  }

  /** A frame of one relay, undecoded, on its way to everybody. */
  function Relayed(now: u32, airtime: u32): Packet {
    Packet(5, NODENUM_BROADCAST, None, now, true, Some(7), airtime, 0.0, true, true)
  }

  /** Such a frame, while its originator is under its own limit: what happens to the relay's bucket. */
  lemma RelayedStep(s: Limiter, now: u32, airtime: u32, prox: u32 -> Proximity)
    requires s.node == 1 && s.enabled && |s.relays| <= 1 && (s.relays != [] ==> s.relays[0].id == 7)
    requires |s.originators| <= 1 && (s.originators != [] ==> s.originators[0].id == 5)
    requires var b := if s.originators == [] then Fresh(now) else s.originators[0].Get(Unknown);
             !b.limited && b.count < 11
    ensures var b := if s.originators == [] then Fresh(now) else s.originators[0].Get(Unknown);
            var r := if s.relays == [] then Fresh(now) else s.relays[0].bucket;
            var p := Relayed(now, airtime);
            var t := ShouldDrop(s, p, prox).state;
            && t.node == 1 && t.enabled
            && t.relays == [Relay(7, ChargeAirtime(r, p).bucket)]
            && ShouldDrop(s, p, prox).drop == ChargeAirtime(r, p).refused
            && |t.originators| == 1 && t.originators[0].id == 5
            && !t.originators[0].Get(Unknown).limited && t.originators[0].Get(Unknown).count <= b.count + 1
  {
    var p := Relayed(now, airtime);
    if s.originators != [] { assert OriginatorIds(s.originators)[0] == 5; }
    if s.relays != [] { assert RelayIds(s.relays)[0] == 7; }
    assert TripOf(Unknown) == 12;
    hide ChargeAirtime;
  }

  /**
   A reachable state and a rebroadcast candidate that is predicted dropped and is not: the longer frame raises
   the clear threshold and lifts a ban the query still reports.
   */
  lemma QueryMayOverPredictCandidates(prox: u32 -> Proximity)
    ensures var s := Run(Initial(1), [Receive(Relayed(0, 12_000), prox), Receive(Relayed(WINDOW_MS, 600), prox),
                                      Receive(Relayed(WINDOW_MS, 1), prox)]);
            var p := Relayed(2 * WINDOW_MS, 200);
            WouldDrop(s, p).drop && !ShouldDrop(s, p, prox).drop
  {
    var o1, o2, o3 := Receive(Relayed(0, 12_000), prox), Receive(Relayed(WINDOW_MS, 600), prox),
                      Receive(Relayed(WINDOW_MS, 1), prox);
    var s1, s2, s3 := Apply(Initial(1), o1), Apply(Apply(Initial(1), o1), o2),
                      Apply(Apply(Apply(Initial(1), o1), o2), o3);
    RunThree(Initial(1), o1, o2, o3);
    BanBuilds();
    hide Run, ShouldDrop, WouldDrop, ChargeAirtime;
    RelayedStep(Initial(1), 0, 12_000, prox);
    assert s1.relays == [Relay(7, BucketState(0, 12_000, true, 3_000))];
    RelayedStep(s1, WINDOW_MS, 600, prox);
    assert s2.relays == [Relay(7, BucketState(WINDOW_MS, 600, true, 3_000))];
    RelayedStep(s2, WINDOW_MS, 1, prox);
    assert s3.relays == [Relay(7, BucketState(WINDOW_MS, 601, true, 500))];
    RelayedStep(s3, 2 * WINDOW_MS, 200, prox);
    QueryReports(s3, 2 * WINDOW_MS, 200);
  }

  lemma RunThree(s: Limiter, a: Op, b: Op, c: Op)
    ensures Run(s, [a, b, c]) == Apply(Apply(Apply(s, a), b), c)
  {
    hide Apply;
    assert [a, b, c][..2] == [a, b] && [a, b][..1] == [a] && [a][..0] == [];
    assert Run(s, [a]) == Apply(s, a);
    assert Run(s, [a, b]) == Apply(Apply(s, a), b);
  }

  /** A trip, a frame under the high thresholds, one under the low ones, and one that lifts the ban. */
  lemma BanBuilds()
    ensures ChargeAirtime(Fresh(0), Relayed(0, 12_000)).bucket == BucketState(0, 12_000, true, 3_000)
    ensures ChargeAirtime(BucketState(0, 12_000, true, 3_000), Relayed(WINDOW_MS, 600)).bucket
            == BucketState(WINDOW_MS, 600, true, 3_000)
    ensures ChargeAirtime(BucketState(WINDOW_MS, 600, true, 3_000), Relayed(WINDOW_MS, 1)).bucket
            == BucketState(WINDOW_MS, 601, true, 500)
    ensures !ChargeAirtime(BucketState(WINDOW_MS, 601, true, 500), Relayed(2 * WINDOW_MS, 200)).refused
  {
    assert RelayBudgets(12_000, 0.0) == (12_000, 3_000) && RelayBudgets(600, 0.0) == (12_000, 3_000);
    assert RelayBudgets(1, 0.0) == (2_000, 500) && RelayBudgets(200, 0.0) == (12_000, 3_000);
    hide RelayBudgets;
  }

  lemma QueryReports(s: Limiter, now: u32, airtime: u32)
    requires s.node == 1 && s.enabled && |s.relays| == 1 && s.relays[0].id == 7
    requires s.relays[0].bucket.LimitedAt(now, RELAY_CLEAR_FLOOR_MS)
    ensures WouldDrop(s, Relayed(now, airtime)).drop
  {
    assert RelayIds(s.relays)[0] == 7;
  }
}
