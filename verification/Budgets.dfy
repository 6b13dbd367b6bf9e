/**
 What passes of one originator, over one relay, and over all unresolved relays together, in any interval of 90 seconds.
 Every packet is accounted for: to the entry at hand, to an entry that comes into being, or to a table full of bans.
 */
module Budgets {
  import opened Machine
  import opened Bucket
  import opened Limiter
  import opened LimiterRuns
  import opened BucketRuns
  import opened DropDecision

  // ---- One originator, one kind of port ----

  function KindBucket(table: seq<Originator>, id: u32, kind: PortKind): BucketState {
    var found := Find(OriginatorIds(table), id);
    if found.Some? then table[found.value].Get(kind) else Fresh(0)
  }

  ghost predicate KindCharged(s: Limiter, op: Op, id: u32, kind: PortKind) {
    && op.Receive? && op.packet.from == id && PortKindOf(op.packet.port) == kind
    && !Exempt(s, op.packet) && !DestStops(s, op.packet)
  }

  /** A packet of that originator and kind that the limiter lets through. */
  ghost predicate KindPasses(s: Limiter, op: Op, id: u32, kind: PortKind) {
    && op.Receive? && op.packet.from == id && PortKindOf(op.packet.port) == kind
    && !Exempt(s, op.packet) && !ShouldDrop(s, op.packet, op.prox).drop
  }

  ghost function OfOriginator(id: u32, kind: PortKind): Follow {
    Follow((s: Limiter) => id in OriginatorIds(s.originators),
           (s: Limiter) => KindBucket(s.originators, id, kind),
           (s: Limiter, x: TimedOp) =>
             if KindCharged(s, x.op, id, kind) then [Dose(x.t, TripOf(kind), ClearOf(kind), 1)] else [],
           (s: Limiter, x: TimedOp) => if KindPasses(s, x.op, id, kind) then 1 else 0)
  }

  /** The entry after the charge of one of its packets. */
  function ChargedEntry(e: Originator, p: Packet): Originator {
    var kind := PortKindOf(p.port);
    e.(lastSeen := p.now).Set(kind, e.Get(kind).Charge(TripOf(kind), ClearOf(kind), 1, p.now).bucket)
  }

  lemma OtherKinds(e: Originator, p: Packet, kind: PortKind)
    ensures ChargedEntry(e, p).id == e.id
    ensures ChargedEntry(e, p).Get(kind) ==
            if PortKindOf(p.port) == kind then e.Get(kind).Charge(TripOf(kind), ClearOf(kind), 1, p.now).bucket
            else e.Get(kind)
  {
    hide BucketState.Charge, TripOf, ClearOf, PortKindOf;
  }

  /** The entry a pass charges: the one in the slot, or a new one. */
  function EntryMet(table: seq<Originator>, p: Packet, k: nat): Originator {
    if k < |table| && table[k].id == p.from then table[k] else FreshOriginator(p.from, p.now)
  }

  /** A pass that finds a slot changes that slot only. */
  lemma PassedEntry(table: seq<Originator>, p: Packet, prox: u32 -> Proximity, k: nat)
    requires OriginatorSlot(table, p.from, p.now, prox) == Some(k) && k <= |table|
    ensures var c := OriginatorPass(table, p, prox); var kind := PortKindOf(p.port);
            && c.table == Place(table, k, ChargedEntry(EntryMet(table, p, k), p))
            && OriginatorIds(c.table) == Place(OriginatorIds(table), k, p.from)
            && c.refused == EntryMet(table, p, k).Get(kind).Charge(TripOf(kind), ClearOf(kind), 1, p.now).refused
  {
    hide BucketState.Charge, TripOf, ClearOf, PortKindOf, OriginatorSlot;
    var e := EntryMet(table, p, k);
    var admitted := AdmitOriginator(table, k, p.from, p.now);
    assert admitted == Place(table, k, e.(lastSeen := p.now));
    assert e.(lastSeen := p.now).Get(PortKindOf(p.port)) == e.Get(PortKindOf(p.port));
    assert OriginatorPass(table, p, prox).table == Place(table, k, ChargedEntry(e, p));
    OtherKinds(e, p, PortKindOf(p.port));
  }

  /** The bucket a pass over the table meets: the one in the table, or a new one. */
  function KindMet(table: seq<Originator>, id: u32, kind: PortKind, now: u32): BucketState {
    if id in OriginatorIds(table) then KindBucket(table, id, kind) else Fresh(now)
  }

  /**
   A pass over the table charges the sender's own bucket, new or not, leaves every entry that stays as it is, and
   never takes the sender's own entry away.
   */
  lemma OriginatorEntryStep(table: seq<Originator>, p: Packet, prox: u32 -> Proximity, id: u32, kind: PortKind)
    requires OriginatorsOk(table)
    ensures var c := OriginatorPass(table, p, prox); var b := KindMet(table, id, kind, p.now);
            if id in OriginatorIds(c.table) then
              if p.from == id && PortKindOf(p.port) == kind then
                var d := b.Charge(TripOf(kind), ClearOf(kind), 1, p.now);
                KindBucket(c.table, id, kind) == d.bucket && c.refused == d.refused
              else KindBucket(c.table, id, kind) == b
            else id in OriginatorIds(table) ==> p.from != id
  {
    var after := OriginatorPass(table, p, prox).table;
    if id !in OriginatorIds(after) {
      if id in OriginatorIds(table) && p.from == id { SenderKeepsEntry(table, p, prox); }
    } else if id in OriginatorIds(table) {
      KeptEntryStep(table, p, prox, id, kind);
    } else {
      NewEntryStep(table, p, prox, id, kind);
    }
    hide OriginatorPass, KindBucket, BucketState.Charge, OriginatorsOk, TripOf, ClearOf, Find, PortKindOf;
  }

  lemma KeptEntryStep(table: seq<Originator>, p: Packet, prox: u32 -> Proximity, id: u32, kind: PortKind)
    requires OriginatorsOk(table)
    requires id in OriginatorIds(table) && id in OriginatorIds(OriginatorPass(table, p, prox).table)
    ensures var c := OriginatorPass(table, p, prox); var b := KindBucket(table, id, kind);
            if p.from == id && PortKindOf(p.port) == kind then
              var d := b.Charge(TripOf(kind), ClearOf(kind), 1, p.now);
              KindBucket(c.table, id, kind) == d.bucket && c.refused == d.refused
            else KindBucket(c.table, id, kind) == b
  {
    var after := OriginatorPass(table, p, prox).table;
    var i := Find(OriginatorIds(table), id).value;
    assert OriginatorIds(table)[i] == table[i].id == id;
    OriginatorAfter(table, p, prox, i);
    KindBucketAt(table, i, id, kind);
    KindBucketAt(after, i, id, kind);
    OtherKinds(table[i], p, kind);
    hide OriginatorPass, KindBucket, BucketState.Charge, OriginatorsOk, TripOf, ClearOf, Find, Distinct, PortKindOf;
  }

  lemma SenderKeepsEntry(table: seq<Originator>, p: Packet, prox: u32 -> Proximity)
    requires p.from in OriginatorIds(table)
    ensures p.from in OriginatorIds(OriginatorPass(table, p, prox).table)
  {
    var ids := OriginatorIds(table);
    var k := OriginatorSlot(table, p.from, p.now, prox).value;
    PassedEntry(table, p, prox, k);
    hide OriginatorPass;
    assert Place(ids, k, p.from)[k] == p.from;
  }

  /** An entry that was not there is the sender's, and fresh but for this packet's charge. */
  lemma NewEntryStep(table: seq<Originator>, p: Packet, prox: u32 -> Proximity, id: u32, kind: PortKind)
    requires OriginatorsOk(table)
    requires id !in OriginatorIds(table) && id in OriginatorIds(OriginatorPass(table, p, prox).table)
    ensures p.from == id
    ensures var c := OriginatorPass(table, p, prox);
            if PortKindOf(p.port) == kind then
              var d := Fresh(p.now).Charge(TripOf(kind), ClearOf(kind), 1, p.now);
              KindBucket(c.table, id, kind) == d.bucket && c.refused == d.refused
            else KindBucket(c.table, id, kind) == Fresh(p.now)
  {
    var ids := OriginatorIds(table);
    var slot := OriginatorSlot(table, p.from, p.now, prox);
    SlotKeepsIds(ids, p.from, OriginatorRanks(table, p.now, prox), MAX_ORIGINATORS);
    hide BucketState.Charge, TripOf, ClearOf, PortKindOf, OriginatorOk, OriginatorRanks;
    PassedEntry(table, p, prox, slot.value);
    assert p.from == id;
    assert slot.value < |table| ==> ids[slot.value] == table[slot.value].id;
    var entry := FreshOriginator(id, p.now);
    OtherKinds(entry, p, kind);
    KindBucketAt(OriginatorPass(table, p, prox).table, slot.value, id, kind);
    hide OriginatorPass, ChargedEntry;
  }

  /** An entry that is still in the table is where it was, and only its own packets change it. */
  lemma OriginatorAfter(table: seq<Originator>, p: Packet, prox: u32 -> Proximity, i: nat)
    requires OriginatorsOk(table) && i < |table|
    requires table[i].id in OriginatorIds(OriginatorPass(table, p, prox).table)
    ensures var c := OriginatorPass(table, p, prox);
            && i < |c.table| && c.table[i].id == table[i].id && Distinct(OriginatorIds(c.table))
            && c.table[i] == (if p.from == table[i].id then ChargedEntry(table[i], p) else table[i])
            && (p.from == table[i].id ==>
                  var kind := PortKindOf(p.port);
                  c.refused == table[i].Get(kind).Charge(TripOf(kind), ClearOf(kind), 1, p.now).refused)
  {
    var ids := OriginatorIds(table);
    assert ids[i] == table[i].id;
    FindOnly(ids, i);
    var slot := OriginatorSlot(table, p.from, p.now, prox);
    SlotKeepsIds(ids, p.from, OriginatorRanks(table, p.now, prox), MAX_ORIGINATORS);
    if slot.Some? {
      hide BucketState.Charge, TripOf, ClearOf, PortKindOf, ChargedEntry, OriginatorOk, OriginatorRanks;
      PassedEntry(table, p, prox, slot.value);
      OtherKinds(table[i], p, PortKindOf(p.port));
      if p.from != table[i].id { StaysPut(ids, slot.value, p.from, table[i].id); }
      hide OriginatorPass;
    }
  }

  /** An id that is still there was not displaced. */
  lemma StaysPut(ids: seq<u32>, k: nat, placed: u32, id: u32)
    requires Distinct(ids) && k <= |ids| && id != placed && id in ids && id in Place(ids, k, placed)
    ensures k != Find(ids, id).value
  {
    var after := Place(ids, k, placed);
    var j :| 0 <= j < |after| && after[j] == id;
    assert j != k && ids[j] == id;
  }

  lemma FindOnly(ids: seq<u32>, k: nat)
    requires Distinct(ids) && k < |ids|
    ensures Find(ids, ids[k]) == Some(k)
  {
  }

  lemma KindBucketAt(table: seq<Originator>, k: nat, id: u32, kind: PortKind)
    requires k < |table| && Distinct(OriginatorIds(table)) && table[k].id == id
    ensures KindBucket(table, id, kind) == table[k].Get(kind)
  {
    assert OriginatorIds(table)[k] == id;
    FindOnly(OriginatorIds(table), k);
  }

  lemma OriginatorFollowed(id: u32, kind: PortKind)
    ensures Followed(OfOriginator(id, kind), TripOf(kind))
  {
    var f := OfOriginator(id, kind);
    forall s: Limiter, x: TimedOp |
      Inv(s) && (x.op.Receive? ==> x.op.packet.now == Clock(x.t))
      ensures StepFollowed(f, TripOf(kind), s, x)
    {
      OriginatorOpStep(s, x, id, kind);
    }
  }

  lemma OriginatorOpStep(s: Limiter, x: TimedOp, id: u32, kind: PortKind)
    requires Inv(s) && (x.op.Receive? ==> x.op.packet.now == Clock(x.t))
    ensures StepFollowed(OfOriginator(id, kind), TripOf(kind), s, x)
  {
    hide BucketState.Charge, OriginatorPass, KindBucket, DestStops, ShouldDrop, Exempt, TripOf, ClearOf;
    var bucket := KindMet(s.originators, id, kind, Clock(x.t));
    var dose := Dose(x.t, TripOf(kind), ClearOf(kind), 1);
    OneTouch(bucket, dose);
    if x.op.Receive? && !Exempt(s, x.op.packet) {
      var p := x.op.packet;
      OriginatorStep(s, p, x.op.prox);
      OriginatorEntryStep(s.originators, p, x.op.prox, id, kind);
      assert KindPasses(s, x.op, id, kind) ==> KindCharged(s, x.op, id, kind);
      assert KindPasses(s, x.op, id, kind) && id in OriginatorIds(Apply(s, x.op).originators) ==>
               !Dosed(bucket, dose).refused;
    } else {
      OthersLeaveOriginators(s, x.op);
    }
    TripIsPositive(kind);
  }

  lemma TripIsPositive(kind: PortKind)
    ensures 0 < TripOf(kind)
  {
  }

  lemma OthersLeaveOriginators(s: Limiter, op: Op)
    requires !op.Receive? || Exempt(s, op.packet)
    ensures Apply(s, op).originators == s.originators
  {
  }

  ghost predicate EntrySound(e: Originator) {
    forall kind :: Sound(e.Get(kind), TripOf(kind))
  }

  ghost predicate OriginatorsSound(table: seq<Originator>) {
    forall i :: 0 <= i < |table| ==> EntrySound(table[i])
  }

  lemma EntryChargeSound(e: Originator, kind: PortKind, now: u32)
    requires EntrySound(e)
    ensures EntrySound(e.Set(kind, e.Get(kind).Charge(TripOf(kind), ClearOf(kind), 1, now).bucket))
  {
    var b := e.Get(kind).Charge(TripOf(kind), ClearOf(kind), 1, now).bucket;
    assert Sound(e.Get(kind), TripOf(kind));
    assert Sound(b, TripOf(kind));
    hide BucketState.Charge, ClearOf;
    forall k ensures Sound(e.Set(kind, b).Get(k), TripOf(k)) {
      assert Sound(e.Get(k), TripOf(k));
    }
  }

  lemma AdmittedSound(table: seq<Originator>, k: nat, id: u32, now: u32)
    requires OriginatorsSound(table) && k <= |table|
    ensures OriginatorsSound(AdmitOriginator(table, k, id, now))
  {
    var admitted := AdmitOriginator(table, k, id, now);
    forall i | 0 <= i < |admitted| ensures EntrySound(admitted[i]) {
      if i < |table| { SeenSound(table[i], now); }
    }
  }

  lemma SeenSound(e: Originator, now: u32)
    requires EntrySound(e)
    ensures EntrySound(e.(lastSeen := now))
  {
    forall k ensures Sound(e.(lastSeen := now).Get(k), TripOf(k)) {
      assert Sound(e.Get(k), TripOf(k));
    }
  }

  lemma OriginatorPassSound(table: seq<Originator>, p: Packet, prox: u32 -> Proximity)
    requires OriginatorsSound(table)
    ensures OriginatorsSound(OriginatorPass(table, p, prox).table)
  {
    var kind := PortKindOf(p.port);
    var slot := OriginatorSlot(table, p.from, p.now, prox);
    if slot.Some? {
      AdmittedSound(table, slot.value, p.from, p.now);
      var admitted := AdmitOriginator(table, slot.value, p.from, p.now);
      EntryChargeSound(admitted[slot.value], kind, p.now);
      hide BucketState.Charge, TripOf, ClearOf, EntrySound, AdmitOriginator;
    }
  }

  lemma {:induction false} RunOriginatorsSound(node: u32, ops: seq<Op>)
    ensures OriginatorsSound(Run(Initial(node), ops).originators)
  {
    if ops == [] {
    } else {
      var n := |ops| - 1;
      RunOriginatorsSound(node, ops[..n]);
      var s := Run(Initial(node), ops[..n]);
      hide OriginatorPass, OriginatorsSound;
      if ops[n].Receive? {
        OriginatorPassSound(s.originators, ops[n].packet, ops[n].prox);
        Frames(s, ops[n].packet, ops[n].prox);
      }
      hide ShouldDrop;
    }
  }

  lemma KindSound(table: seq<Originator>, id: u32, kind: PortKind)
    requires OriginatorsSound(table)
    ensures Sound(KindBucket(table, id, kind), TripOf(kind))
  {
    TripIsPositive(kind);
    var found := Find(OriginatorIds(table), id);
    if found.Some? { assert EntrySound(table[found.value]); }
    hide TripOf;
  }

  /**
   Over every run, in any interval one window long: at most two full budgets of one kind of an originator's packets
   pass if it has an entry at the start, one more for each time it gets a new entry, and those packets that find
   the table full of bans and leave no entry.
   */
  lemma OriginatorBound(node: u32, before: seq<Op>, ops: seq<TimedOp>, from: nat, id: u32, kind: PortKind)
    requires OnTime(ops, from, from + WINDOW_MS)
    ensures var s := Run(Initial(node), before); var f := OfOriginator(id, kind);
            Passing(f, s, ops) <= (TripOf(kind) - 1) * ((if id in OriginatorIds(s.originators) then 2 else 0)
                                                        + Creations(f, s, ops)) + Unrecorded(f, s, ops)
  {
    var s := Run(Initial(node), before);
    Reachable(node, before);
    RunOriginatorsSound(node, before);
    OriginatorFollowed(id, kind);
    TripIsPositive(kind);
    KindSound(s.originators, id, kind);
    hide Followed, Passing, Creations, Unrecorded, OriginatorsSound, TripOf, Inv, OnTime, KindBucket, Sound, Run,
         Initial;
    AccountBound(OfOriginator(id, kind), TripOf(kind), s, ops, from);
  }

  /** While the originator's entry stays in the table, at most two full budgets pass. */
  lemma KeptOriginatorBound(node: u32, before: seq<Op>, ops: seq<TimedOp>, from: nat, id: u32, kind: PortKind)
    requires OnTime(ops, from, from + WINDOW_MS)
    requires Stays(OfOriginator(id, kind), Run(Initial(node), before), ops)
    ensures Passing(OfOriginator(id, kind), Run(Initial(node), before), ops) <= 2 * (TripOf(kind) - 1)
  {
    OriginatorBound(node, before, ops, from, id, kind);
    StayingIsRecorded(OfOriginator(id, kind), Run(Initial(node), before), ops);
    hide Passing, Creations, Unrecorded, OnTime;
  }

  /** Sixteen entries, all limited: there is no room for another originator. */
  ghost predicate BansOnly(table: seq<Originator>, now: u32) {
    |table| == MAX_ORIGINATORS && forall i :: 0 <= i < |table| ==> table[i].LimitedAt(now)
  }

  /** A packet that reaches the originator pass leaves no entry exactly if it finds none, and only bans. */
  lemma UnrecordedExactly(s: Limiter, p: Packet, prox: u32 -> Proximity)
    requires Inv(s) && !Exempt(s, p) && !DestStops(s, p)
    ensures p.from !in OriginatorIds(ShouldDrop(s, p, prox).state.originators)
            <==> p.from !in OriginatorIds(s.originators) && BansOnly(s.originators, p.now)
  {
    OriginatorStep(s, p, prox);
    var table := s.originators;
    hide ShouldDrop, DestStops, Exempt, BansOnly, OriginatorPass;
    if p.from in OriginatorIds(table) {
      SenderKeepsEntry(table, p, prox);
    } else {
      OriginatorRoomIsSlot(table, p, prox);
      var slot := OriginatorSlot(table, p.from, p.now, prox);
      if slot.Some? {
        PassedEntry(table, p, prox, slot.value);
        assert Place(OriginatorIds(table), slot.value, p.from)[slot.value] == p.from;
      } else {
        NoSlotNoEntry(table, p, prox);
      }
    }
  }

  lemma NoSlotNoEntry(table: seq<Originator>, p: Packet, prox: u32 -> Proximity)
    requires OriginatorSlot(table, p.from, p.now, prox).None?
    ensures OriginatorPass(table, p, prox).table == table && !OriginatorPass(table, p, prox).refused
  {
  }

  lemma OriginatorRoomIsSlot(table: seq<Originator>, p: Packet, prox: u32 -> Proximity)
    requires OriginatorsOk(table) && p.from !in OriginatorIds(table)
    ensures var slot := OriginatorSlot(table, p.from, p.now, prox);
            (slot.None? <==> BansOnly(table, p.now)) && (slot.Some? ==> slot.value <= |table|)
  {
    var ranks := OriginatorRanks(table, p.now, prox);
    forall i | 0 <= i < |table| ensures ranks[i].limited == table[i].LimitedAt(p.now) {
      assert OriginatorIds(table)[i] == table[i].id;
      FindOnly(OriginatorIds(table), i);
    }
    assert IsEvictionChoice(ranks, EvictionCandidate(ranks));
  }

  // ---- One relay: its airtime ----

  function RelayBucketOf(table: seq<Relay>, id: u32): BucketState {
    var found := Find(RelayIds(table), id);
    if found.Some? then table[found.value].bucket else Fresh(0)
  }

  ghost predicate ReachesRelay(s: Limiter, op: Op) {
    op.Receive? && !Exempt(s, op.packet) && op.packet.candidate && !SenderStops(s, op.packet)
  }

  /** A rebroadcast candidate that the limiter lets through. */
  ghost predicate CandidatePasses(s: Limiter, op: Op) {
    op.Receive? && !Exempt(s, op.packet) && op.packet.candidate && !ShouldDrop(s, op.packet, op.prox).drop
  }

  function AirtimeDose(p: Packet, t: nat): Touch {
    var (trip, clear) := RelayBudgets(RelayAirtime(p), p.util);
    Dose(t, trip, clear, RelayAirtime(p))
  }

  ghost function OfRelay(id: u32): Follow {
    Follow((s: Limiter) => id in RelayIds(s.relays),
           (s: Limiter) => RelayBucketOf(s.relays, id),
           (s: Limiter, x: TimedOp) =>
             if ReachesRelay(s, x.op) && NamedRelay(s.node, x.op.packet.resolvedRelay) == Some(id)
             then [AirtimeDose(x.op.packet, x.t)] else [],
           (s: Limiter, x: TimedOp) =>
             if CandidatePasses(s, x.op) && NamedRelay(s.node, x.op.packet.resolvedRelay) == Some(id)
             then RelayAirtime(x.op.packet) else 0)
  }

  /** The bucket a pass over the relays meets: the one in the table, or a new one. */
  function RelayMet(table: seq<Relay>, id: u32, now: u32): BucketState {
    if id in RelayIds(table) then RelayBucketOf(table, id) else Fresh(now)
  }

  /**
   A pass over the relays charges the named relay's bucket, new or not, leaves every entry that stays as it is, and
   never takes the named relay's own entry away.
   */
  lemma RelayEntryStep(table: seq<Relay>, named: u32, p: Packet, t: nat, prox: u32 -> Proximity, id: u32)
    requires RelaysOk(table) && p.now == Clock(t)
    ensures var c := RelayPass(table, named, p, prox); var b := RelayMet(table, id, p.now);
            if id in RelayIds(c.table) then
              if named == id then
                var d := Dosed(b, AirtimeDose(p, t));
                RelayBucketOf(c.table, id) == d.bucket && c.refused == d.refused
              else RelayBucketOf(c.table, id) == b
            else id in RelayIds(table) ==> named != id
  {
    var ids, after := RelayIds(table), RelayPass(table, named, p, prox).table;
    var slot := RelaySlot(table, named, p.now, prox);
    SlotKeepsIds(ids, named, RelayRanks(table, p.now, prox), MAX_RELAYS);
    if slot.Some? {
      hide BucketState.Charge, RelayBudgets, RelayAirtime, RelayRanks, RankOf;
      var k := slot.value;
      assert RelayIds(after) == Place(ids, k, named);
      assert after[k].id == RelayIds(after)[k] == named;
      assert k < |table| ==> ids[k] == table[k].id;
      if named == id {
        RelayBucketAt(after, k);
        if id in ids { RelayBucketAt(table, k); }
      } else if id in RelayIds(after) {
        var i :| 0 <= i < |RelayIds(after)| && RelayIds(after)[i] == id;
        assert i != k && ids[i] == table[i].id == id && after[i] == table[i];
        RelayBucketAt(after, i);
        RelayBucketAt(table, i);
      }
    }
  }

  lemma RelayBucketAt(table: seq<Relay>, k: nat)
    requires k < |table| && Distinct(RelayIds(table))
    ensures RelayBucketOf(table, table[k].id) == table[k].bucket
  {
    assert RelayIds(table)[k] == table[k].id;
    FindOnly(RelayIds(table), k);
  }

  lemma RelayOpStep(s: Limiter, x: TimedOp, id: u32)
    requires Inv(s) && (x.op.Receive? ==> x.op.packet.now == Clock(x.t))
    ensures StepFollowed(OfRelay(id), RELAY_TRIP_CEIL_MS, s, x)
  {
    hide BucketState.Charge, RelayPass, RelayBucketOf, SenderStops, ShouldDrop, Exempt, RelayBudgets, RelayAirtime;
    var bucket := RelayMet(s.relays, id, Clock(x.t));
    if x.op.Receive? && !Exempt(s, x.op.packet) {
      var p := x.op.packet;
      var y := RelayStep(s, p, x.op.prox);
      OneTouch(bucket, AirtimeDose(p, x.t));
      RelayBudgetsInRange(RelayAirtime(p), p.util);
      var named := NamedRelay(s.node, p.resolvedRelay);
      assert CandidatePasses(s, x.op) ==> ReachesRelay(s, x.op) by { CandidateReaches(s, p, x.op.prox); }
      if ReachesRelay(s, x.op) && named.Some? {
        RelayEntryStep(s.relays, named.value, p, x.t, x.op.prox, id);
      }
    } else {
      OneTouch(bucket, Opening(0));
      OthersLeaveRelays(s, x.op);
    }
  }

  lemma CandidateReaches(s: Limiter, p: Packet, prox: u32 -> Proximity)
    requires Inv(s)
    ensures !Exempt(s, p) && !ShouldDrop(s, p, prox).drop ==> !SenderStops(s, p)
  {
    DropsExactly(s, p, prox);
    hide ShouldDrop, SenderStops, Exempt, Inv;
  }

  lemma OthersLeaveRelays(s: Limiter, op: Op)
    requires !op.Receive? || Exempt(s, op.packet)
    ensures Apply(s, op).relays == s.relays && Apply(s, op).unresolved == s.unresolved
  {
  }

  lemma RelayFollowed(id: u32)
    ensures Followed(OfRelay(id), RELAY_TRIP_CEIL_MS)
  {
    var f := OfRelay(id);
    forall s: Limiter, x: TimedOp |
      Inv(s) && (x.op.Receive? ==> x.op.packet.now == Clock(x.t))
      ensures StepFollowed(f, RELAY_TRIP_CEIL_MS, s, x)
    {
      RelayOpStep(s, x, id);
    }
  }

  // ---- All unresolved relays together ----

  /** The one bucket of relays that are not resolved: opened by any candidate, charged by unresolved ones. */
  ghost function OfUnresolved(): Follow {
    Follow((s: Limiter) => true,
           (s: Limiter) => s.unresolved,
           (s: Limiter, x: TimedOp) =>
             if !ReachesRelay(s, x.op) then []
             else if NamedRelay(s.node, x.op.packet.resolvedRelay).None? && x.op.packet.graphEstablished
             then [Opening(x.t), AirtimeDose(x.op.packet, x.t)] else [Opening(x.t)],
           (s: Limiter, x: TimedOp) =>
             if CandidatePasses(s, x.op) && NamedRelay(s.node, x.op.packet.resolvedRelay).None?
                && x.op.packet.graphEstablished
             then RelayAirtime(x.op.packet) else 0)
  }

  lemma UnresolvedOpStep(s: Limiter, x: TimedOp)
    requires Inv(s) && (x.op.Receive? ==> x.op.packet.now == Clock(x.t))
    ensures StepFollowed(OfUnresolved(), RELAY_TRIP_CEIL_MS, s, x)
  {
    hide BucketState.Charge, BucketState.Reopen, RelayPass, SenderStops, ShouldDrop, Exempt, RelayBudgets, RelayAirtime;
    if x.op.Receive? && !Exempt(s, x.op.packet) {
      var p := x.op.packet;
      var y := RelayStep(s, p, x.op.prox);
      var open, dose := Opening(x.t), AirtimeDose(p, x.t);
      OneTouch(s.unresolved, open);
      OneTouch(Touched(s.unresolved, open), dose);
      assert [open, dose][1..] == [dose];
      RelayBudgetsInRange(RelayAirtime(p), p.util);
      assert CandidatePasses(s, x.op) ==> ReachesRelay(s, x.op) by { CandidateReaches(s, p, x.op.prox); }
    } else {
      OneTouch(s.unresolved, Opening(0));
      OthersLeaveRelays(s, x.op);
    }
  }

  lemma UnresolvedFollowed()
    ensures Followed(OfUnresolved(), RELAY_TRIP_CEIL_MS)
  {
    var f := OfUnresolved();
    forall s: Limiter, x: TimedOp |
      Inv(s) && (x.op.Receive? ==> x.op.packet.now == Clock(x.t))
      ensures StepFollowed(f, RELAY_TRIP_CEIL_MS, s, x)
    {
      UnresolvedOpStep(s, x);
    }
  }

  // ---- The bounds ----

  ghost predicate RelaysSound(s: Limiter) {
    && Sound(s.unresolved, RELAY_TRIP_CEIL_MS)
    && forall i :: 0 <= i < |s.relays| ==> Sound(s.relays[i].bucket, RELAY_TRIP_CEIL_MS)
  }

  lemma AirtimeSound(b: BucketState, p: Packet)
    requires Sound(b, RELAY_TRIP_CEIL_MS)
    ensures Sound(b.Reopen(p.now), RELAY_TRIP_CEIL_MS) && Sound(ChargeAirtime(b, p).bucket, RELAY_TRIP_CEIL_MS)
  {
    RelayBudgetsInRange(RelayAirtime(p), p.util);
    hide RelayBudgets;
  }

  lemma ChargeRelaySound(s: Limiter, p: Packet, prox: u32 -> Proximity)
    requires RelaysSound(s)
    ensures RelaysSound(ChargeRelay(s, p, prox).state)
  {
    AirtimeSound(s.unresolved, p);
    AirtimeSound(s.unresolved.Reopen(p.now), p);
    var named := NamedRelay(s.node, p.resolvedRelay);
    if named.Some? {
      var slot := RelaySlot(s.relays, named.value, p.now, prox);
      if slot.Some? {
        var e := AdmitRelay(s.relays, slot.value, named.value, p.now)[slot.value];
        AirtimeSound(e.bucket, p);
      }
    }
    hide ChargeAirtime, BucketState.Reopen;
  }

  lemma {:induction false} RunRelaysSound(node: u32, ops: seq<Op>)
    ensures RelaysSound(Run(Initial(node), ops))
  {
    if ops == [] {
    } else {
      var n := |ops| - 1;
      RunRelaysSound(node, ops[..n]);
      Reachable(node, ops[..n]);
      var s := Run(Initial(node), ops[..n]);
      if ops[n].Receive? && !Exempt(s, ops[n].packet) {
        var y := RelayStep(s, ops[n].packet, ops[n].prox);
        ChargeRelaySound(y, ops[n].packet, ops[n].prox);
      } else {
        OthersLeaveRelays(s, ops[n]);
      }
      hide ShouldDrop, ChargeRelay, Exempt, SenderStops, Inv;
    }
  }

  /** The same account for the airtime over one relay, whatever thresholds the packets bring. */
  lemma RelayAirtimeBound(node: u32, before: seq<Op>, ops: seq<TimedOp>, from: nat, id: u32)
    requires OnTime(ops, from, from + WINDOW_MS)
    ensures var s := Run(Initial(node), before); var f := OfRelay(id);
            Passing(f, s, ops) <= (RELAY_TRIP_CEIL_MS - 1) * ((if id in RelayIds(s.relays) then 2 else 0)
                                                              + Creations(f, s, ops)) + Unrecorded(f, s, ops)
  {
    var s := Run(Initial(node), before);
    Reachable(node, before);
    RunRelaysSound(node, before);
    RelayFollowed(id);
    hide Followed, Passing, Creations, Unrecorded, Inv, OnTime;
    AccountBound(OfRelay(id), RELAY_TRIP_CEIL_MS, s, ops, from);
  }

  /** While the relay's entry stays in the table, less than two full budgets of airtime pass. */
  lemma KeptRelayBound(node: u32, before: seq<Op>, ops: seq<TimedOp>, from: nat, id: u32)
    requires OnTime(ops, from, from + WINDOW_MS)
    requires Stays(OfRelay(id), Run(Initial(node), before), ops)
    ensures Passing(OfRelay(id), Run(Initial(node), before), ops) <= 2 * (RELAY_TRIP_CEIL_MS - 1)
  {
    RelayAirtimeBound(node, before, ops, from, id);
    StayingIsRecorded(OfRelay(id), Run(Initial(node), before), ops);
    hide Passing, Creations, Unrecorded, OnTime;
  }

  /** A candidate that reaches the relay pass leaves its relay without an entry exactly if there is no room. */
  lemma UnrecordedRelayExactly(s: Limiter, p: Packet, prox: u32 -> Proximity)
    requires Inv(s) && !Exempt(s, p) && p.candidate && !SenderStops(s, p) && NamedRelay(s.node, p.resolvedRelay).Some?
    ensures var id := NamedRelay(s.node, p.resolvedRelay).value;
            id !in RelayIds(ShouldDrop(s, p, prox).state.relays)
            <==> id !in RelayIds(s.relays) && !RelayRoom(s.relays, p.now)
  {
    var id := NamedRelay(s.node, p.resolvedRelay).value;
    var y := RelayStep(s, p, prox);
    RelayRecorded(s.relays, id, p, prox);
    hide ShouldDrop, SenderStops, Exempt, RelayPass, RelayRoom;
  }

  lemma RelayRecorded(table: seq<Relay>, id: u32, p: Packet, prox: u32 -> Proximity)
    requires RelaysOk(table)
    ensures id in RelayIds(RelayPass(table, id, p, prox).table) <==> id in RelayIds(table) || RelayRoom(table, p.now)
  {
    var ids, slot := RelayIds(table), RelaySlot(table, id, p.now, prox);
    if id !in ids { RoomIsSlot(table, id, p.now, prox); }
    hide RelayRoom, ChargeAirtime;
    SlotKeepsIds(ids, id, RelayRanks(table, p.now, prox), MAX_RELAYS);
    if slot.Some? {
      var after := RelayPass(table, id, p, prox).table;
      assert RelayIds(after)[slot.value] == id;
    }
  }

  /** And over all unresolved relays together, without condition. */
  lemma UnresolvedAirtimeBound(node: u32, before: seq<Op>, ops: seq<TimedOp>, from: nat)
    requires OnTime(ops, from, from + WINDOW_MS)
    ensures Passing(OfUnresolved(), Run(Initial(node), before), ops) <= 2 * (RELAY_TRIP_CEIL_MS - 1)
  {
    var s := Run(Initial(node), before);
    Reachable(node, before);
    RunRelaysSound(node, before);
    UnresolvedFollowed();
    UnresolvedStays(s, ops);
    hide Followed, Stays, Passing, Inv, OnTime;
    FollowedBound(OfUnresolved(), RELAY_TRIP_CEIL_MS, s, ops, from);
  }

  lemma {:induction false} UnresolvedStays(s: Limiter, ops: seq<TimedOp>)
    ensures Stays(OfUnresolved(), s, ops)
    decreases |ops|
  {
    if ops != [] {
      hide Apply;
      UnresolvedStays(Apply(s, ops[0].op), ops[1..]);
    }
  }
}
