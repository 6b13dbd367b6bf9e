/**
 The node's rate limiter as a transition system over values: four bounded tables, the young and
 alumni admission lists, and the passes a packet makes over them.
 */
module Limiter {
  import opened Machine
  import opened Bucket

  const MAX_ORIGINATORS: nat := 16
  const MAX_RELAYS: nat := 8
  const MAX_YOUNG: nat := 32
  const MAX_ALUMNI: nat := 128
  const MAX_DESTS: nat := 8
  const YOUNG_AGE_MS: u32 := 1_800_000
  const WARMUP_MS: u32 := 1_800_000
  const YOUNG_TRIP: u32 := 48
  const YOUNG_CLEAR: u32 := 12
  const ANNOUNCE_REFRACTORY_MS: u32 := 1_800_000
  const ANNOUNCE_MAX_IDS: nat := 4
  const DEST_TRIP: u32 := 20
  const DEST_CLEAR: u32 := 5
  const DEST_MIN_SENDERS: nat := 3
  const DEST_SENDER_SLOTS: nat := 8
  const RELAY_REF_AIRTIME_MS: u32 := 100
  const RELAY_TRIP_FLOOR_MS: u32 := 2_000
  const RELAY_TRIP_CEIL_MS: u32 := 12_000
  const RELAY_CLEAR_FLOOR_MS: u32 := 500
  const RELAY_CLEAR_CEIL_MS: u32 := 4_000
  const NODENUM_BROADCAST: u32 := 0xFFFF_FFFF
  const PLACEHOLDER_PREFIX: u32 := 0xFF00_0000

  // ---- Entities ----

  datatype PortKind = Text | Routing | Other | Unknown

  datatype LimitKind = OfPort(port: PortKind) | RelayLimit | UnresolvedLimit | YoungLimit | DestLimit

  datatype Event = Trip(id: u32, kind: LimitKind) | Clear(id: u32, kind: LimitKind) | DestDrop(id: u32)

  datatype Packet = Packet(
    from: u32, to: u32, port: Option<u32>, now: u32, candidate: bool, resolvedRelay: Option<u32>,
    airtime: u32, util: real, graphEstablished: bool, onDefault: bool)

  datatype Proximity = Proximity(inGraph: bool, hops: u8)

  datatype Originator = Originator(
    id: u32, lastSeen: u32, text: BucketState, routing: BucketState, other: BucketState, unknown: BucketState)
  {
    function Get(kind: PortKind): BucketState {
      match kind
      case Text => text
      case Routing => routing
      case Other => other
      case Unknown => unknown
    }

    function Set(kind: PortKind, b: BucketState): Originator {
      match kind
      case Text => this.(text := b)
      case Routing => this.(routing := b)
      case Other => this.(other := b)
      case Unknown => this.(unknown := b)
    }

    predicate LimitedAt(now: u32) {
      || text.LimitedAt(now, ClearOf(Text))
      || routing.LimitedAt(now, ClearOf(Routing))
      || other.LimitedAt(now, ClearOf(Other))
      || unknown.LimitedAt(now, ClearOf(Unknown))
    }
  }

  datatype Relay = Relay(id: u32, bucket: BucketState)

  datatype Dest = Dest(id: u32, bucket: BucketState, senders: seq<u32>)

  datatype Sighting = Sighting(id: u32, firstSeen: u32, graduated: bool) {
    predicate Active(now: u32) {
      !graduated && WrappingSub(now, firstSeen) < YOUNG_AGE_MS
    }

    /** Looking at an aged sighting latches its graduation. */
    function Latch(now: u32): Sighting {
      this.(graduated := !Active(now))
    }
  }

  datatype Admission = Admission(
    young: seq<Sighting>, alumni: seq<u32>, boot: u32, bootKnown: bool, warmed: bool)

  datatype Announcements = Announcements(last: u32, ever: bool, pending: Option<seq<u32>>)

  datatype Limiter = Limiter(
    node: u32, enabled: bool, originators: seq<Originator>, relays: seq<Relay>, unresolved: BucketState,
    admission: Admission, youngBucket: BucketState, dests: seq<Dest>, announcements: Announcements,
    lastEvent: Option<Event>)

  datatype Decision = Decision(state: Limiter, drop: bool)

  function Initial(node: u32): Limiter {
    Limiter(node, true, [], [], Fresh(0), Admission([], [], 0, false, false), Fresh(0), [],
            Announcements(0, false, None), None)
  }

  function PortKindOf(port: Option<u32>): PortKind {
    match port
    case None => Unknown
    case Some(n) =>
      if n == 1 || n == 7 then Text
      else if n == 5 || n == 88 || n == 70 then Routing
      else Other
  }

  function TripOf(kind: PortKind): u32 {
    match kind
    case Text => 30
    case Routing => 10
    case Other => 4
    case Unknown => 12
  }

  /** Half the trip threshold, at least one. */
  function ClearOf(kind: PortKind): u32 {
    Max(TripOf(kind) / 2, 1)
  }

  predicate IsUnicast(to: u32) {
    to != 0 && to != NODENUM_BROADCAST
  }

  /** The relays that are charged by name. */
  function NamedRelay(node: u32, relay: Option<u32>): Option<u32> {
    if relay.Some? && relay.value != 0 && relay.value != node && relay.value < PLACEHOLDER_PREFIX then relay
    else None
  }

  function WithChange(prior: Option<Event>, change: Change, id: u32, kind: LimitKind): Option<Event> {
    match change
    case Unchanged => prior
    case Tripped => Some(Trip(id, kind))
    case Cleared => Some(Clear(id, kind))
  }

  // ---- Bounded tables ----

  /** What eviction looks at: bans first, then graph membership, distance and age. */
  datatype Rank = Rank(limited: bool, outside: bool, hops: u8, age: u32)

  predicate Above(a: Rank, b: Rank) {
    || (a.outside && !b.outside)
    || (a.outside == b.outside && a.hops > b.hops)
    || (a.outside == b.outside && a.hops == b.hops && a.age > b.age)
  }

  /** The first of the highest-ranked entries that are not limited. */
  ghost predicate IsEvictionChoice(ranks: seq<Rank>, choice: Option<nat>) {
    match choice
    case None => forall i :: 0 <= i < |ranks| ==> ranks[i].limited
    case Some(v) =>
      && v < |ranks|
      && !ranks[v].limited
      && (forall j :: 0 <= j < |ranks| && !ranks[j].limited ==> !Above(ranks[j], ranks[v]))
      && (forall j :: 0 <= j < v && !ranks[j].limited ==> Above(ranks[v], ranks[j]))
  }

  function EvictionCandidate(ranks: seq<Rank>): (r: Option<nat>)
    ensures IsEvictionChoice(ranks, r)
  {
    if ranks == [] then None
    else
      var n := |ranks| - 1;
      var best := EvictionCandidate(ranks[..n]);
      if !ranks[n].limited && (best.None? || Above(ranks[n], ranks[best.value])) then Some(n) else best
  }

  /** Where an entry for `id` goes: its own slot, a free slot, an evicted slot, or nowhere. */
  function SlotFor(ids: seq<u32>, id: u32, ranks: seq<Rank>, capacity: nat): Option<nat>
    requires |ranks| == |ids|
  {
    var found := Find(ids, id);
    if found.Some? then found
    else if |ids| < capacity then Some(|ids|)
    else EvictionCandidate(ranks)
  }

  function Place<E>(table: seq<E>, index: nat, entry: E): seq<E>
    requires index <= |table|
  {
    if index == |table| then table + [entry] else table[index := entry]
  }

  function RankOf(limited: bool, p: Proximity, age: u32): Rank {
    Rank(limited, !p.inGraph, p.hops, age)
  }

  function OriginatorIds(table: seq<Originator>): seq<u32> {
    seq(|table|, i requires 0 <= i < |table| => table[i].id)
  }

  function OriginatorLimitedAt(table: seq<Originator>, id: u32, now: u32): bool {
    var found := Find(OriginatorIds(table), id);
    found.Some? && table[found.value].LimitedAt(now)
  }

  function OriginatorRanks(table: seq<Originator>, now: u32, prox: u32 -> Proximity): seq<Rank> {
    seq(|table|, i requires 0 <= i < |table| =>
      RankOf(OriginatorLimitedAt(table, table[i].id, now), prox(table[i].id),
             WrappingSub(now, table[i].lastSeen)))
  }

  function FreshOriginator(id: u32, now: u32): Originator {
    Originator(id, now, Fresh(now), Fresh(now), Fresh(now), Fresh(now))
  }

  function OriginatorSlot(table: seq<Originator>, id: u32, now: u32, prox: u32 -> Proximity): Option<nat> {
    SlotFor(OriginatorIds(table), id, OriginatorRanks(table, now, prox), MAX_ORIGINATORS)
  }

  /** The table with an entry for `id` at the slot found for it. */
  function AdmitOriginator(table: seq<Originator>, index: nat, id: u32, now: u32): seq<Originator>
    requires index <= |table|
  {
    if index < |table| && table[index].id == id then table[index := table[index].(lastSeen := now)]
    else Place(table, index, FreshOriginator(id, now))
  }

  function RelayIds(table: seq<Relay>): seq<u32> {
    seq(|table|, i requires 0 <= i < |table| => table[i].id)
  }

  function RelayRanks(table: seq<Relay>, now: u32, prox: u32 -> Proximity): seq<Rank> {
    seq(|table|, i requires 0 <= i < |table| =>
      RankOf(table[i].bucket.LimitedAt(now, RELAY_CLEAR_FLOOR_MS), prox(table[i].id),
             WrappingSub(now, table[i].bucket.windowStart)))
  }

  function RelaySlot(table: seq<Relay>, id: u32, now: u32, prox: u32 -> Proximity): Option<nat> {
    SlotFor(RelayIds(table), id, RelayRanks(table, now, prox), MAX_RELAYS)
  }

  function AdmitRelay(table: seq<Relay>, index: nat, id: u32, now: u32): seq<Relay>
    requires index <= |table|
  {
    if index < |table| && table[index].id == id then table
    else Place(table, index, Relay(id, Fresh(now)))
  }

  function DestIds(table: seq<Dest>): seq<u32> {
    seq(|table|, i requires 0 <= i < |table| => table[i].id)
  }

  function DestRanks(table: seq<Dest>, now: u32, prox: u32 -> Proximity): seq<Rank> {
    seq(|table|, i requires 0 <= i < |table| =>
      RankOf(table[i].bucket.LimitedAt(now, DEST_CLEAR), prox(table[i].id),
             WrappingSub(now, table[i].bucket.windowStart)))
  }

  function DestSlot(table: seq<Dest>, id: u32, now: u32, prox: u32 -> Proximity): Option<nat> {
    SlotFor(DestIds(table), id, DestRanks(table, now, prox), MAX_DESTS)
  }

  function FreshDest(id: u32, now: u32): Dest { Dest(id, Fresh(now), []) }

  function AdmitDest(table: seq<Dest>, index: nat, id: u32, now: u32): seq<Dest>
    requires index <= |table|
  {
    if index < |table| && table[index].id == id then table
    else Place(table, index, FreshDest(id, now))
  }

  // ---- Young nodes and alumni ----

  function YoungIds(young: seq<Sighting>): seq<u32> {
    seq(|young|, i requires 0 <= i < |young| => young[i].id)
  }

  function LatchAll(young: seq<Sighting>, now: u32): seq<Sighting> {
    seq(|young|, i requires 0 <= i < |young| => young[i].Latch(now))
  }

  function ActiveIds(young: seq<Sighting>, now: u32): seq<u32> {
    if young == [] then []
    else
      var n := |young| - 1;
      ActiveIds(young[..n], now) + (if young[n].Active(now) then [young[n].id] else [])
  }

  function AgedIds(young: seq<Sighting>, now: u32): seq<u32> {
    if young == [] then []
    else
      var n := |young| - 1;
      AgedIds(young[..n], now) + (if young[n].Active(now) then [] else [young[n].id])
  }

  function FirstAged(young: seq<Sighting>, now: u32): (r: Option<nat>)
    ensures r.None? <==> forall i :: 0 <= i < |young| ==> young[i].Active(now)
    ensures r.Some? ==> r.value < |young| && !young[r.value].Active(now)
    ensures r.Some? ==> forall i :: 0 <= i < r.value ==> young[i].Active(now)
  {
    if young == [] then None
    else if !young[0].Active(now) then Some(0)
    else
      var rest := FirstAged(young[1..], now);
      if rest.None? then None else Some(rest.value + 1)
  }

  predicate WarmedUp(a: Admission, now: u32) {
    a.warmed || (a.bootKnown && WrappingSub(now, a.boot) >= WARMUP_MS)
  }

  function LatchWarm(a: Admission, now: u32): Admission {
    a.(warmed := WarmedUp(a, now))
  }

  function NoteBoot(a: Admission, now: u32): Admission {
    if a.bootKnown then a else a.(boot := now, bootKnown := true)
  }

  function AddAlumni(a: Admission, id: u32): Admission {
    if id in a.alumni || |a.alumni| >= MAX_ALUMNI then a else a.(alumni := a.alumni + [id])
  }

  function InsertYoung(a: Admission, id: u32, now: u32): Admission {
    if |a.young| >= MAX_YOUNG then a else a.(young := a.young + [Sighting(id, now, false)])
  }

  function ExpireIfOld(a: Admission, id: u32, now: u32): Admission {
    var found := Find(YoungIds(a.young), id);
    if found.None? then a
    else
      var i := found.value;
      var latched := a.(young := a.young[i := a.young[i].Latch(now)]);
      if a.young[i].Active(now) then latched
      else
        var added := AddAlumni(latched, id);
        if id in added.alumni then added.(young := SwapRemove(added.young, i)) else added
  }

  function NoteOriginator(a: Admission, id: u32, now: u32): Admission {
    var e := ExpireIfOld(a, id, now);
    if id in YoungIds(e.young) || id in e.alumni then e
    else
      var w := LatchWarm(e, now);
      if !w.warmed then AddAlumni(w, id)
      else if |w.young| < MAX_YOUNG then InsertYoung(w, id, now)
      else
        var aged := FirstAged(w.young, now);
        if aged.None? then w
        else
          var kept := AddAlumni(w, w.young[aged.value].id);
          InsertYoung(kept.(young := SwapRemove(kept.young, aged.value)), id, now)
  }

  predicate IsYoung(a: Admission, id: u32, now: u32) {
    var found := Find(YoungIds(a.young), id);
    if found.Some? then a.young[found.value].Active(now)
    else id !in a.alumni && |ActiveIds(a.young, now)| >= MAX_YOUNG
  }

  /** The graduations that asking `IsYoung` latches. */
  function LatchYoung(a: Admission, id: u32, now: u32): Admission {
    var found := Find(YoungIds(a.young), id);
    if found.Some? then a.(young := a.young[found.value := a.young[found.value].Latch(now)])
    else if id in a.alumni then a
    else a.(young := LatchAll(a.young, now))
  }

  // ---- Announcements ----

  /** The identifiers the announcement holds after looking at the first `n` sightings. */
  function ScanIds(young: seq<Sighting>, now: u32, n: nat): (ids: seq<u32>)
    requires n <= |young|
    ensures |ids| <= ANNOUNCE_MAX_IDS
  {
    if n == 0 then []
    else
      var ids := ScanIds(young, now, n - 1);
      if |ids| < ANNOUNCE_MAX_IDS && young[n - 1].Active(now) then ids + [young[n - 1].id] else ids
  }

  /** The graduations latched by that scan, which stops when the announcement is full. */
  function ScanLatch(young: seq<Sighting>, now: u32): seq<Sighting> {
    seq(|young|, i requires 0 <= i < |young| =>
      if |ScanIds(young, now, i)| < ANNOUNCE_MAX_IDS then young[i].Latch(now) else young[i])
  }

  predicate AnyRelayLimited(s: Limiter, now: u32) {
    || s.unresolved.LimitedAt(now, RELAY_CLEAR_FLOOR_MS)
    || exists i :: 0 <= i < |s.relays| && s.relays[i].bucket.LimitedAt(now, RELAY_CLEAR_FLOOR_MS)
  }

  function MaybeAnnounce(s: Limiter, now: u32, util: real): Limiter {
    var n := s.announcements;
    if AnyRelayLimited(s, now) || util > 25.0
       || (n.ever && WrappingSub(now, n.last) < ANNOUNCE_REFRACTORY_MS) then s
    else
      s.(announcements := Announcements(now, true, Some(ScanIds(s.admission.young, now, |s.admission.young|))),
         admission := s.admission.(young := ScanLatch(s.admission.young, now)))
  }

  // ---- The passes of one packet ----

  predicate Exempt(s: Limiter, p: Packet) {
    !s.enabled || p.from == 0 || p.from == s.node || p.to == s.node
  }

  predicate DestLimited(dests: seq<Dest>, id: u32) {
    var found := Find(DestIds(dests), id);
    found.Some? && dests[found.value].bucket.limited
  }

  predicate DestLimitedAt(dests: seq<Dest>, id: u32, now: u32) {
    var found := Find(DestIds(dests), id);
    found.Some? && dests[found.value].bucket.LimitedAt(now, DEST_CLEAR)
  }

  predicate ToLimitedDest(s: Limiter, p: Packet) {
    && p.onDefault && IsUnicast(p.to)
    && (OriginatorLimitedAt(s.originators, p.to, p.now) || DestLimitedAt(s.dests, p.to, p.now))
  }

  /** Position, node-info and telemetry replies we would relay count against their destination. */
  predicate ChargesDest(p: Packet) {
    && p.onDefault && IsUnicast(p.to) && p.candidate
    && (p.port == Some(3) || p.port == Some(4) || p.port == Some(67))
  }

  function NoteSender(senders: seq<u32>, from: u32): seq<u32> {
    if from == 0 || from in senders || |senders| >= DEST_SENDER_SLOTS then senders else senders + [from]
  }

  datatype DestCharged = DestCharged(entry: Dest, refused: bool, change: Change)

  /** One pass over a destination: a charge by a sender, or a pass that only lets time act. */
  function DestPass(e: Dest, sender: Option<u32>, now: u32): DestCharged {
    var rolled := if WrappingSub(now, e.bucket.windowStart) >= WINDOW_MS then [] else e.senders;
    var senders := if sender.Some? then NoteSender(rolled, sender.value) else rolled;
    var trip := if e.bucket.limited || |senders| >= DEST_MIN_SENDERS then DEST_TRIP else U32_MAX;
    var c := e.bucket.Charge(trip, DEST_CLEAR, if sender.Some? then 1 else 0, now);
    DestCharged(Dest(e.id, c.bucket, senders), c.refused, c.change)
  }

  /** A table after one pass over it. */
  datatype Pass<E> = Pass(table: seq<E>, refused: bool, change: Change)

  function DestTablePass(table: seq<Dest>, p: Packet, prox: u32 -> Proximity): Pass<Dest> {
    if ChargesDest(p) then
      var slot := DestSlot(table, p.to, p.now, prox);
      if slot.None? then Pass(table, DestLimited(table, p.to), Unchanged)
      else
        var admitted := AdmitDest(table, slot.value, p.to, p.now);
        var c := DestPass(admitted[slot.value], Some(p.from), p.now);
        Pass(admitted[slot.value := c.entry], c.refused, c.change)
    else
      var found := Find(DestIds(table), p.to);
      if found.None? then Pass(table, false, Unchanged)
      else
        var c := DestPass(table[found.value], None, p.now);
        var after := table[found.value := c.entry];
        Pass(after, DestLimited(after, p.to), c.change)
  }

  function ChargeDest(s: Limiter, p: Packet, prox: u32 -> Proximity): Decision {
    if !IsUnicast(p.to) || !p.onDefault then Decision(s, false)
    else
      var c := DestTablePass(s.dests, p, prox);
      Decision(s.(dests := c.table, lastEvent := WithChange(s.lastEvent, c.change, p.to, DestLimit)), c.refused)
  }

  function OriginatorPass(table: seq<Originator>, p: Packet, prox: u32 -> Proximity): Pass<Originator> {
    var kind := PortKindOf(p.port);
    var slot := OriginatorSlot(table, p.from, p.now, prox);
    if slot.None? then Pass(table, false, Unchanged)
    else
      var admitted := AdmitOriginator(table, slot.value, p.from, p.now);
      var entry := admitted[slot.value];
      var c := entry.Get(kind).Charge(TripOf(kind), ClearOf(kind), 1, p.now);
      Pass(admitted[slot.value := entry.Set(kind, c.bucket)], c.refused, c.change)
  }

  function ChargeOriginator(s: Limiter, p: Packet, prox: u32 -> Proximity): Decision {
    var c := OriginatorPass(s.originators, p, prox);
    Decision(s.(originators := c.table,
                lastEvent := WithChange(s.lastEvent, c.change, p.from, OfPort(PortKindOf(p.port)))), c.refused)
  }

  function ChargeYoung(s: Limiter, p: Packet): Decision {
    var w := s.(admission := LatchWarm(s.admission, p.now));
    if !w.admission.warmed then Decision(w, false)
    else
      var y := w.(admission := LatchYoung(w.admission, p.from, p.now));
      if !IsYoung(w.admission, p.from, p.now) then Decision(y, false)
      else
        var c := y.youngBucket.Charge(YOUNG_TRIP, YOUNG_CLEAR, 1, p.now);
        var charged := y.(youngBucket := c.bucket, lastEvent := WithChange(y.lastEvent, c.change, 0, YoungLimit));
        Decision(if c.change == Tripped then MaybeAnnounce(charged, p.now, p.util) else charged, c.refused)
  }

  function Clamp(x: int, low: u32, high: u32): u32
    requires low <= high
  {
    if x < low then low else if x > high then high else x
  }

  /** Trip and clear budgets in milliseconds of airtime, halved as the channel fills up. */
  function RelayBudgets(air: u32, util: real): (u32, u32) {
    var base := SaturatingMul(60, air);
    var excess := if util > 50.0 then 1.0 else if util > 25.0 then (util - 25.0) / 25.0 else 0.0;
    var trip := Clamp((base as real * (1.0 - 0.5 * excess)).Floor, RELAY_TRIP_FLOOR_MS, RELAY_TRIP_CEIL_MS);
    (trip, Clamp(trip * 15 / 60, RELAY_CLEAR_FLOOR_MS, RELAY_CLEAR_CEIL_MS))
  }

  function RelayAirtime(p: Packet): u32 {
    if p.airtime == 0 then RELAY_REF_AIRTIME_MS else p.airtime
  }

  function RelayPass(table: seq<Relay>, id: u32, p: Packet, prox: u32 -> Proximity): Pass<Relay> {
    var slot := RelaySlot(table, id, p.now, prox);
    if slot.None? then Pass(table, false, Unchanged)
    else
      var admitted := AdmitRelay(table, slot.value, id, p.now);
      var c := ChargeAirtime(admitted[slot.value].bucket, p);
      Pass(admitted[slot.value := Relay(id, c.bucket)], c.refused, c.change)
  }

  function ChargeAirtime(b: BucketState, p: Packet): Charged {
    var (trip, clear) := RelayBudgets(RelayAirtime(p), p.util);
    b.Charge(trip, clear, RelayAirtime(p), p.now)
  }

  function ChargeRelay(s: Limiter, p: Packet, prox: u32 -> Proximity): Decision {
    var shared := s.unresolved.Reopen(p.now);
    var named := NamedRelay(s.node, p.resolvedRelay);
    if named.Some? then
      var c := RelayPass(s.relays, named.value, p, prox);
      Decision(s.(relays := c.table, unresolved := shared,
                  lastEvent := WithChange(s.lastEvent, c.change, named.value, RelayLimit)), c.refused)
    else if p.graphEstablished then
      var c := ChargeAirtime(shared, p);
      Decision(s.(unresolved := c.bucket, lastEvent := WithChange(s.lastEvent, c.change, 0, UnresolvedLimit)),
               c.refused)
    else Decision(s.(unresolved := shared), false)
  }

  /** The passes after the destination passes let the packet through. */
  function ChargeSender(s: Limiter, p: Packet, prox: u32 -> Proximity): Decision {
    var decoded := PortKindOf(p.port) != Unknown;
    var noted := if decoded then s.(admission := NoteOriginator(s.admission, p.from, p.now)) else s;
    var byOriginator := ChargeOriginator(noted, p, prox);
    var byYoung := if decoded then ChargeYoung(byOriginator.state, p) else Decision(byOriginator.state, false);
    var drop := byOriginator.drop || byYoung.drop;
    if p.candidate && !drop then ChargeRelay(byYoung.state, p, prox) else Decision(byYoung.state, drop)
  }

  /** `should_drop`: decide a packet's fate, charging every bucket it touches. */
  function ShouldDrop(s: Limiter, p: Packet, prox: u32 -> Proximity): Decision {
    var start := s.(lastEvent := None);
    if Exempt(s, p) then Decision(start, false)
    else
      var booted := start.(admission := NoteBoot(s.admission, p.now));
      var d := ChargeDest(booted, p, prox);
      if d.drop || ToLimitedDest(d.state, p) then
        var tripped := d.state.lastEvent.Some? && d.state.lastEvent.value.Trip?
                       && d.state.lastEvent.value.kind == DestLimit;
        Decision(if tripped then d.state else d.state.(lastEvent := Some(DestDrop(p.to))), true)
      else ChargeSender(d.state, p, prox)
  }

  predicate OriginatorWouldDrop(s: Limiter, p: Packet) {
    var kind := PortKindOf(p.port);
    var found := Find(OriginatorIds(s.originators), p.from);
    found.Some? && s.originators[found.value].Get(kind).LimitedAt(p.now, ClearOf(kind))
  }

  predicate RelayWouldDrop(s: Limiter, p: Packet) {
    var named := NamedRelay(s.node, p.resolvedRelay);
    if named.Some? then
      var found := Find(RelayIds(s.relays), named.value);
      found.Some? && s.relays[found.value].bucket.LimitedAt(p.now, RELAY_CLEAR_FLOOR_MS)
    else p.graphEstablished && s.unresolved.LimitedAt(p.now, RELAY_CLEAR_FLOOR_MS)
  }

  /** `would_drop`: the same question without charging; looking still latches ages and warm-up. */
  function WouldDrop(s: Limiter, p: Packet): Decision {
    if Exempt(s, p) then Decision(s, false)
    else if ToLimitedDest(s, p) || OriginatorWouldDrop(s, p) then Decision(s, true)
    else
      var decoded := PortKindOf(p.port) != Unknown;
      var w := if decoded then s.(admission := LatchWarm(s.admission, p.now)) else s;
      var asked := decoded && w.admission.warmed;
      var y := if asked then w.(admission := LatchYoung(w.admission, p.from, p.now)) else w;
      if asked && IsYoung(w.admission, p.from, p.now) && s.youngBucket.LimitedAt(p.now, YOUNG_CLEAR) then
        Decision(y, true)
      else Decision(y, p.candidate && RelayWouldDrop(y, p))
  }

  // ---- The coverage snapshot ----

  datatype Gate = Gate(active: bool, tableFull: bool, ids: seq<u32>, established: seq<u32>) {
    predicate Blocks(id: u32) {
      active && id != 0 && if tableFull then id !in established else id in ids
    }
  }

  const EMPTY_GATE := Gate(false, false, [], [])

  predicate GateOpen(s: Limiter, now: u32) {
    s.enabled && WarmedUp(s.admission, now) && s.youngBucket.LimitedAt(now, YOUNG_CLEAR)
  }

  function CoverageGate(s: Limiter, now: u32): Gate {
    if !GateOpen(s, now) then EMPTY_GATE
    else
      var a := s.admission;
      Gate(true, |ActiveIds(a.young, now)| >= MAX_YOUNG, ActiveIds(a.young, now), a.alumni + AgedIds(a.young, now))
  }

  /** What taking the snapshot latches. */
  function AfterGate(s: Limiter, now: u32): Limiter {
    if !s.enabled then s
    else
      var w := s.(admission := LatchWarm(s.admission, now));
      if !GateOpen(s, now) then w
      else w.(admission := w.admission.(young := LatchAll(w.admission.young, now)))
  }
}
