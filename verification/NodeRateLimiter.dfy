/** The rate limiter object: fields updated in place, proved against the transition system. */
module NodeRateLimiter {
  import opened Machine
  import opened Bucket
  import opened Limiter
  import Spec = Limiter

  /** The scan over candidates for eviction, keeping the best rank so far. */
  method EvictionScan(ranks: seq<Rank>) returns (best: Option<nat>)
    ensures best == EvictionCandidate(ranks)
    ensures IsEvictionChoice(ranks, best)
  {
    best := None;
    for i := 0 to |ranks|
      invariant best == EvictionCandidate(ranks[..i])
    {
      assert ranks[..i + 1][..i] == ranks[..i];
      if !ranks[i].limited && (best.None? || Above(ranks[i], ranks[best.value])) {
        best := Some(i);
      }
    }
    assert ranks[..|ranks|] == ranks;
  }

  method FindSlot(ids: seq<u32>, id: u32, ranks: seq<Rank>, capacity: nat) returns (slot: Option<nat>)
    requires |ranks| == |ids|
    ensures slot == SlotFor(ids, id, ranks, capacity)
  {
    slot := Find(ids, id);
    if slot.None? {
      if |ids| < capacity {
        slot := Some(|ids|);
      } else {
        slot := EvictionScan(ranks);
      }
    }
  }

  /** Once the announcement is full, the rest of the table does not change it. */
  lemma {:induction false} ScanFull(young: seq<Sighting>, now: u32, from: nat, to: nat)
    requires from <= to <= |young|
    requires |ScanIds(young, now, from)| == ANNOUNCE_MAX_IDS
    ensures ScanIds(young, now, to) == ScanIds(young, now, from)
  {
    if from < to {
      ScanFull(young, now, from, to - 1);
    }
  }

  class RateLimiter {
    var nodeNum: u32
    var enabled: bool
    var originators: seq<Originator>
    var relays: seq<Relay>
    var unresolvedRelay: BucketState
    var young: seq<Sighting>
    var alumni: seq<u32>
    var youngBucket: BucketState
    var dests: seq<Dest>
    var bootMs: u32
    var bootKnown: bool
    var bootWarmed: bool
    var lastAnnounceMs: u32
    var announceEver: bool
    var pendingAnnounce: Option<seq<u32>>
    var lastEvent: Option<Event>

    ghost function Lists(): Admission
      reads this
    {
      Admission(young, alumni, bootMs, bootKnown, bootWarmed)
    }

    ghost function Model(): Limiter
      reads this
    {
      Limiter(nodeNum, enabled, originators, relays, unresolvedRelay, Lists(), youngBucket, dests,
              Announcements(lastAnnounceMs, announceEver, pendingAnnounce), lastEvent)
    }

    constructor (nodeNum: u32)
      ensures Model() == Initial(nodeNum)
    {
      this.nodeNum, enabled := nodeNum, true;
      originators, relays, dests := [], [], [];
      unresolvedRelay, youngBucket := Fresh(0), Fresh(0);
      young, alumni := [], [];
      bootMs, bootKnown, bootWarmed := 0, false, false;
      lastAnnounceMs, announceEver, pendingAnnounce := 0, false, None;
      lastEvent := None;
    }

    method CheckWarmedUp(now: u32) returns (r: bool)
      modifies this`bootWarmed
      ensures Lists() == LatchWarm(old(Lists()), now)
      ensures r == WarmedUp(old(Lists()), now)
    {
      if bootKnown && WrappingSub(now, bootMs) >= WARMUP_MS {
        bootWarmed := true;
      }
      r := bootWarmed;
    }

    method YoungAgeActive(i: nat, now: u32) returns (r: bool)
      requires i < |young|
      modifies this`young
      ensures young == old(young)[i := old(young)[i].Latch(now)]
      ensures r == old(young)[i].Active(now)
    {
      if WrappingSub(now, young[i].firstSeen) >= YOUNG_AGE_MS {
        young := young[i := young[i].(graduated := true)];
      }
      r := !young[i].graduated;
    }

    method ActiveYoungCount(now: u32) returns (n: nat)
      modifies this`young
      ensures young == LatchAll(old(young), now)
      ensures n == |ActiveIds(old(young), now)|
    {
      ghost var was := young;
      n := 0;
      for i := 0 to |young|
        invariant |young| == |was|
        invariant forall j :: 0 <= j < |was| ==> young[j] == if j < i then was[j].Latch(now) else was[j]
        invariant n == |ActiveIds(was[..i], now)|
      {
        assert was[..i + 1][..i] == was[..i];
        var active := YoungAgeActive(i, now);
        if active {
          n := n + 1;
        }
      }
      assert was[..|was|] == was;
    }

    method AddAlumni(id: u32) returns (present: bool)
      modifies this`alumni
      ensures Lists() == Spec.AddAlumni(old(Lists()), id)
      ensures present == (id in alumni)
    {
      if id in alumni {
        return true;
      }
      if |alumni| >= MAX_ALUMNI {
        return false;
      }
      alumni := alumni + [id];
      return true;
    }

    method RemoveYoungAt(i: nat)
      requires i < |young|
      modifies this`young
      ensures young == SwapRemove(old(young), i)
    {
      var last := |young| - 1;
      if i < last {
        young := young[i := young[last]];
      }
      young := young[..last];
    }

    method InsertYoung(id: u32, now: u32)
      modifies this`young
      ensures Lists() == Spec.InsertYoung(old(Lists()), id, now)
    {
      if |young| >= MAX_YOUNG {
        return;
      }
      young := young + [Sighting(id, now, false)];
    }

    method ExpireIfOld(id: u32, now: u32)
      modifies this`young, this`alumni
      ensures Lists() == Spec.ExpireIfOld(old(Lists()), id, now)
    {
      var found := Find(YoungIds(young), id);
      if found.None? {
        return;
      }
      var active := YoungAgeActive(found.value, now);
      if active {
        return;
      }
      var added := AddAlumni(id);
      if added {
        RemoveYoungAt(found.value);
      }
    }

    method NoteOriginator(id: u32, now: u32)
      modifies this`young, this`alumni, this`bootWarmed
      ensures Lists() == Spec.NoteOriginator(old(Lists()), id, now)
    {
      ExpireIfOld(id, now);
      if id in YoungIds(young) || id in alumni {
        return;
      }
      var warmed := CheckWarmedUp(now);
      if !warmed {
        var _ := AddAlumni(id);
        return;
      }
      if |young| < MAX_YOUNG {
        InsertYoung(id, now);
        return;
      }
      var aged := FirstAged(young, now);
      if aged.None? {
        return;
      }
      var _ := AddAlumni(young[aged.value].id);
      RemoveYoungAt(aged.value);
      InsertYoung(id, now);
    }

    method CheckYoung(id: u32, now: u32) returns (r: bool)
      modifies this`young
      ensures Lists() == LatchYoung(old(Lists()), id, now)
      ensures r == IsYoung(old(Lists()), id, now)
    {
      var found := Find(YoungIds(young), id);
      if found.Some? {
        r := YoungAgeActive(found.value, now);
        return;
      }
      if id in alumni {
        return false;
      }
      var n := ActiveYoungCount(now);
      return n >= MAX_YOUNG;
    }

    method RelayAnyLimited(now: u32) returns (r: bool)
      ensures r == AnyRelayLimited(Model(), now)
    {
      r := unresolvedRelay.LimitedAt(now, RELAY_CLEAR_FLOOR_MS);
      for i := 0 to |relays|
        invariant r <==>
          unresolvedRelay.LimitedAt(now, RELAY_CLEAR_FLOOR_MS)
          || exists j :: 0 <= j < i && relays[j].bucket.LimitedAt(now, RELAY_CLEAR_FLOOR_MS)
      {
        if relays[i].bucket.LimitedAt(now, RELAY_CLEAR_FLOOR_MS) {
          r := true;
        }
      }
    }

    method ScanForAnnounce(now: u32) returns (ids: seq<u32>)
      modifies this`young
      ensures ids == ScanIds(old(young), now, |old(young)|)
      ensures young == ScanLatch(old(young), now)
    {
      ghost var was := young;
      ids := [];
      var i := 0;
      while i < |young| && |ids| < ANNOUNCE_MAX_IDS
        invariant 0 <= i <= |young| == |was|
        invariant ids == ScanIds(was, now, i)
        invariant forall j :: 0 <= j < i ==> |ScanIds(was, now, j)| < ANNOUNCE_MAX_IDS
        invariant forall j :: 0 <= j < i ==> young[j] == was[j].Latch(now)
        invariant forall j :: i <= j < |was| ==> young[j] == was[j]
      {
        var active := YoungAgeActive(i, now);
        if active {
          ids := ids + [young[i].id];
        }
        i := i + 1;
      }
      forall j | i <= j <= |was| ensures ScanIds(was, now, j) == ids {
        if i < |was| { ScanFull(was, now, i, j); }
      }
    }

    method MaybeAnnounce(now: u32, util: real)
      modifies this`young, this`lastAnnounceMs, this`announceEver, this`pendingAnnounce
      ensures Model() == Spec.MaybeAnnounce(old(Model()), now, util)
    {
      var relayLimited := RelayAnyLimited(now);
      if relayLimited || util > 25.0 {
        return;
      }
      if announceEver && WrappingSub(now, lastAnnounceMs) < ANNOUNCE_REFRACTORY_MS {
        return;
      }
      var ids := ScanForAnnounce(now);
      lastAnnounceMs, announceEver, pendingAnnounce := now, true, Some(ids);
    }

    method RecordChange(change: Change, id: u32, kind: LimitKind)
      modifies this`lastEvent
      ensures lastEvent == WithChange(old(lastEvent), change, id, kind)
    {
      match change
      case Unchanged =>
      case Tripped => lastEvent := Some(Trip(id, kind));
      case Cleared => lastEvent := Some(Clear(id, kind));
    }

    method ChargeDestVolume(p: Packet, prox: u32 -> Proximity) returns (limited: bool)
      modifies this`dests, this`lastEvent
      ensures Decision(Model(), limited) == ChargeDest(old(Model()), p, prox)
    {
      if !IsUnicast(p.to) || !p.onDefault {
        return false;
      }
      if ChargesDest(p) {
        var slot := FindSlot(DestIds(dests), p.to, DestRanks(dests, p.now, prox), MAX_DESTS);
        if slot.None? {
          return DestLimited(dests, p.to);
        }
        dests := AdmitDest(dests, slot.value, p.to, p.now);
        var c := DestPass(dests[slot.value], Some(p.from), p.now);
        dests := dests[slot.value := c.entry];
        RecordChange(c.change, p.to, DestLimit);
        return c.refused;
      }
      var found := Find(DestIds(dests), p.to);
      if found.Some? {
        var c := DestPass(dests[found.value], None, p.now);
        dests := dests[found.value := c.entry];
        RecordChange(c.change, p.to, DestLimit);
      }
      return DestLimited(dests, p.to);
    }

    method ChargeOriginatorBucket(p: Packet, prox: u32 -> Proximity) returns (limited: bool)
      modifies this`originators, this`lastEvent
      ensures Decision(Model(), limited) == ChargeOriginator(old(Model()), p, prox)
    {
      var kind := PortKindOf(p.port);
      var slot := FindSlot(OriginatorIds(originators), p.from, OriginatorRanks(originators, p.now, prox),
                           MAX_ORIGINATORS);
      if slot.None? {
        return false;
      }
      originators := AdmitOriginator(originators, slot.value, p.from, p.now);
      var entry := originators[slot.value];
      var c := entry.Get(kind).Charge(TripOf(kind), ClearOf(kind), 1, p.now);
      originators := originators[slot.value := entry.Set(kind, c.bucket)];
      RecordChange(c.change, p.from, OfPort(kind));
      return c.refused;
    }

    method ChargeYoungBucket(p: Packet) returns (limited: bool)
      modifies this
      ensures Decision(Model(), limited) == ChargeYoung(old(Model()), p)
    {
      hide IsYoung, LatchYoung, Spec.MaybeAnnounce, BucketState.Charge, WithChange, WarmedUp;
      var warmed := CheckWarmedUp(p.now);
      if !warmed {
        return false;
      }
      var isYoung := CheckYoung(p.from, p.now);
      if !isYoung {
        return false;
      }
      var c := youngBucket.Charge(YOUNG_TRIP, YOUNG_CLEAR, 1, p.now);
      youngBucket := c.bucket;
      RecordChange(c.change, 0, YoungLimit);
      if c.change == Tripped {
        MaybeAnnounce(p.now, p.util);
      }
      return c.refused;
    }

    method ChargeRelayBucket(p: Packet, prox: u32 -> Proximity) returns (limited: bool)
      modifies this`relays, this`unresolvedRelay, this`lastEvent
      ensures Decision(Model(), limited) == ChargeRelay(old(Model()), p, prox)
    {
      if unresolvedRelay.windowStart == 0 && unresolvedRelay.count == 0 && !unresolvedRelay.limited {
        unresolvedRelay := unresolvedRelay.(windowStart := p.now);
      }
      var named := NamedRelay(nodeNum, p.resolvedRelay);
      if named.Some? {
        var slot := FindSlot(RelayIds(relays), named.value, RelayRanks(relays, p.now, prox), MAX_RELAYS);
        if slot.None? {
          return false;
        }
        relays := AdmitRelay(relays, slot.value, named.value, p.now);
        var c := ChargeAirtime(relays[slot.value].bucket, p);
        relays := relays[slot.value := Relay(named.value, c.bucket)];
        RecordChange(c.change, named.value, RelayLimit);
        return c.refused;
      } else if p.graphEstablished {
        var c := ChargeAirtime(unresolvedRelay, p);
        unresolvedRelay := c.bucket;
        RecordChange(c.change, 0, UnresolvedLimit);
        return c.refused;
      }
      return false;
    }

    method ChargeSenderBuckets(p: Packet, prox: u32 -> Proximity) returns (drop: bool)
      modifies this
      ensures Decision(Model(), drop) == ChargeSender(old(Model()), p, prox)
    {
      var decoded := PortKindOf(p.port) != Unknown;
      if decoded {
        NoteOriginator(p.from, p.now);
      }
      drop := ChargeOriginatorBucket(p, prox);
      if decoded {
        var limited := ChargeYoungBucket(p);
        drop := drop || limited;
      }
      if p.candidate && !drop {
        drop := ChargeRelayBucket(p, prox);
      }
    }

    method ShouldDrop(p: Packet, prox: u32 -> Proximity) returns (drop: bool)
      modifies this
      ensures Decision(Model(), drop) == Spec.ShouldDrop(old(Model()), p, prox)
    {
      ghost var was := Model();
      lastEvent := None;
      if !enabled || p.from == 0 || p.from == nodeNum || p.to == nodeNum {
        return false;
      }
      if !bootKnown {
        bootMs, bootKnown := p.now, true;
      }
      ghost var booted := was.(lastEvent := None, admission := NoteBoot(was.admission, p.now));
      assert Model() == booted;
      var byVolume := ChargeDestVolume(p, prox);
      ghost var d := ChargeDest(booted, p, prox);
      assert Decision(Model(), byVolume) == d;
      var toLimited := p.onDefault && IsUnicast(p.to)
        && (OriginatorLimitedAt(originators, p.to, p.now) || DestLimitedAt(dests, p.to, p.now));
      assert toLimited == ToLimitedDest(d.state, p);
      if byVolume || toLimited {
        if !(lastEvent.Some? && lastEvent.value.Trip? && lastEvent.value.kind == DestLimit) {
          lastEvent := Some(DestDrop(p.to));
        }
        return true;
      }
      drop := ChargeSenderBuckets(p, prox);
    }

    method WouldDrop(p: Packet) returns (drop: bool)
      modifies this`young, this`bootWarmed
      ensures Decision(Model(), drop) == Spec.WouldDrop(old(Model()), p)
    {
      hide IsYoung, LatchYoung, Find, OriginatorLimitedAt, DestLimitedAt, BucketState.LimitedAt, WarmedUp, RelayWouldDrop,
           ClearOf;
      if !enabled || p.from == 0 || p.from == nodeNum || p.to == nodeNum {
        return false;
      }
      if p.onDefault && IsUnicast(p.to)
         && (OriginatorLimitedAt(originators, p.to, p.now) || DestLimitedAt(dests, p.to, p.now)) {
        return true;
      }
      var kind := PortKindOf(p.port);
      var found := Find(OriginatorIds(originators), p.from);
      if found.Some? && originators[found.value].Get(kind).LimitedAt(p.now, ClearOf(kind)) {
        return true;
      }
      if kind != Unknown {
        var warmed := CheckWarmedUp(p.now);
        if warmed {
          var isYoung := CheckYoung(p.from, p.now);
          if isYoung && youngBucket.LimitedAt(p.now, YOUNG_CLEAR) {
            return true;
          }
        }
      }
      if !p.candidate {
        return false;
      }
      drop := RelayLimited(p);
    }

    /** The query's look at the relay: by name, or the shared bucket of unresolved ones. */
    method RelayLimited(p: Packet) returns (limited: bool)
      ensures limited == RelayWouldDrop(Model(), p)
    {
      var named := NamedRelay(nodeNum, p.resolvedRelay);
      if named.Some? {
        var relay := Find(RelayIds(relays), named.value);
        return relay.Some? && relays[relay.value].bucket.LimitedAt(p.now, RELAY_CLEAR_FLOOR_MS);
      }
      return p.graphEstablished && unresolvedRelay.LimitedAt(p.now, RELAY_CLEAR_FLOOR_MS);
    }

    method SplitByAge(now: u32) returns (active: seq<u32>, aged: seq<u32>)
      modifies this`young
      ensures young == LatchAll(old(young), now)
      ensures active == ActiveIds(old(young), now) && aged == AgedIds(old(young), now)
    {
      ghost var was := young;
      active, aged := [], [];
      for i := 0 to |young|
        invariant |young| == |was|
        invariant forall j :: 0 <= j < |was| ==> young[j] == if j < i then was[j].Latch(now) else was[j]
        invariant active == ActiveIds(was[..i], now) && aged == AgedIds(was[..i], now)
      {
        assert was[..i + 1][..i] == was[..i];
        var isActive := YoungAgeActive(i, now);
        if isActive {
          active := active + [young[i].id];
        } else {
          aged := aged + [young[i].id];
        }
      }
      assert was[..|was|] == was;
    }

    method TakeCoverageGate(now: u32) returns (gate: Gate)
      modifies this`young, this`bootWarmed
      ensures gate == CoverageGate(old(Model()), now)
      ensures Model() == AfterGate(old(Model()), now)
    {
      if !enabled {
        return EMPTY_GATE;
      }
      var warmed := CheckWarmedUp(now);
      if !warmed || !youngBucket.LimitedAt(now, YOUNG_CLEAR) {
        return EMPTY_GATE;
      }
      var ids, aged := SplitByAge(now);
      gate := Gate(true, |ids| >= MAX_YOUNG, ids, alumni + aged);
    }
  }
}
