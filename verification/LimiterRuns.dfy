/** What holds of the rate limiter in every reachable state and over every run. */
module LimiterRuns {
  import opened Machine
  import opened Bucket
  import opened Limiter

  // ---- Runs ----

  datatype Op =
    | Receive(packet: Packet, prox: u32 -> Proximity)
    | Query(packet: Packet)
    | Snapshot(now: u32)
    | SetEnabled(on: bool)
    | SetNode(node: u32)
    | SetBoot(boot: u32)
    | TakeEvent

  ghost function Apply(s: Limiter, op: Op): Limiter {
    match op
    case Receive(p, prox) => ShouldDrop(s, p, prox).state
    case Query(p) => WouldDrop(s, p).state
    case Snapshot(now) => AfterGate(s, now)
    case SetEnabled(on) => s.(enabled := on)
    case SetNode(node) => s.(node := node)
    case SetBoot(boot) => s.(admission := s.admission.(boot := boot, bootKnown := true, warmed := false))
    case TakeEvent => s.(lastEvent := None)
  }

  ghost function Run(s: Limiter, ops: seq<Op>): Limiter {
    if ops == [] then s else Apply(Run(s, ops[..|ops| - 1]), ops[|ops| - 1])
  }

  // ---- The invariant ----

  ghost predicate Threshold(b: BucketState, clear: u32) {
    b.clearThreshold == 0 || b.clearThreshold == clear
  }

  ghost predicate OriginatorOk(e: Originator) {
    forall k: PortKind :: Threshold(e.Get(k), ClearOf(k))
  }

  ghost predicate OriginatorsOk(table: seq<Originator>) {
    && |table| <= MAX_ORIGINATORS
    && Distinct(OriginatorIds(table))
    && forall i :: 0 <= i < |table| ==> OriginatorOk(table[i])
  }

  ghost predicate RelaysOk(table: seq<Relay>) {
    |table| <= MAX_RELAYS && Distinct(RelayIds(table))
  }

  ghost predicate DestOk(e: Dest) {
    && Threshold(e.bucket, DEST_CLEAR)
    && |e.senders| <= DEST_SENDER_SLOTS
    && Distinct(e.senders)
    && (!e.bucket.limited ==> e.bucket.count < U32_MAX)
    && (!e.bucket.limited && |e.senders| >= DEST_MIN_SENDERS ==> e.bucket.count < DEST_TRIP)
  }

  ghost predicate DestsOk(table: seq<Dest>) {
    && |table| <= MAX_DESTS
    && Distinct(DestIds(table))
    && forall i :: 0 <= i < |table| ==> DestOk(table[i])
  }

  ghost predicate AdmissionOk(a: Admission) {
    && |a.young| <= MAX_YOUNG
    && |a.alumni| <= MAX_ALUMNI
    && Distinct(YoungIds(a.young))
    && Distinct(a.alumni)
    && forall i :: 0 <= i < |a.young| ==> a.young[i].id !in a.alumni
  }

  ghost predicate Inv(s: Limiter) {
    && OriginatorsOk(s.originators)
    && RelaysOk(s.relays)
    && DestsOk(s.dests)
    && AdmissionOk(s.admission)
    && Threshold(s.youngBucket, YOUNG_CLEAR)
  }

  // ---- Tables ----

  /** Giving an identity its slot keeps identities unique, and displaces only an unlimited entry. */
  lemma SlotKeepsIds(ids: seq<u32>, id: u32, ranks: seq<Rank>, capacity: nat)
    requires |ranks| == |ids| <= capacity
    requires Distinct(ids)
    ensures var slot := SlotFor(ids, id, ranks, capacity);
            slot.Some? ==>
              && slot.value <= |ids|
              && Distinct(Place(ids, slot.value, id))
              && |Place(ids, slot.value, id)| <= capacity
              && (slot.value < |ids| && ids[slot.value] != id ==> !ranks[slot.value].limited && id !in ids)
              && (slot.value == |ids| ==> id !in ids)
  {
  }

  lemma YoungFrame(s: Limiter, p: Packet)
    ensures var t := ChargeYoung(s, p).state;
            t.node == s.node && t.originators == s.originators && t.relays == s.relays && t.dests == s.dests
  {
  }

  lemma RelayFrame(s: Limiter, p: Packet, prox: u32 -> Proximity)
    ensures var t := ChargeRelay(s, p, prox).state;
            && t.originators == s.originators && t.dests == s.dests
            && (t.relays == s.relays
                || (NamedRelay(s.node, p.resolvedRelay).Some?
                    && t.relays == RelayPass(s.relays, NamedRelay(s.node, p.resolvedRelay).value, p, prox).table))
  {
  }

  /** Which tables the passes after the destination pass can touch. */
  lemma SenderFrames(s: Limiter, p: Packet, prox: u32 -> Proximity)
    ensures var t := ChargeSender(s, p, prox).state;
            && t.originators == OriginatorPass(s.originators, p, prox).table
            && (t.relays == s.relays
                || (NamedRelay(s.node, p.resolvedRelay).Some?
                    && t.relays == RelayPass(s.relays, NamedRelay(s.node, p.resolvedRelay).value, p, prox).table))
            && t.dests == s.dests
  {
    var decoded := PortKindOf(p.port) != Unknown;
    var noted := if decoded then s.(admission := NoteOriginator(s.admission, p.from, p.now)) else s;
    var byOriginator := ChargeOriginator(noted, p, prox);
    var byYoung := if decoded then ChargeYoung(byOriginator.state, p) else Decision(byOriginator.state, false);
    YoungFrame(byOriginator.state, p);
    RelayFrame(byYoung.state, p, prox);
    assert ChargeSender(s, p, prox) ==
           if p.candidate && !(byOriginator.drop || byYoung.drop) then ChargeRelay(byYoung.state, p, prox)
           else Decision(byYoung.state, byOriginator.drop || byYoung.drop);
  }

  /** Which tables a packet can touch, and through which pass. */
  lemma Frames(s: Limiter, p: Packet, prox: u32 -> Proximity)
    ensures var t := ShouldDrop(s, p, prox).state;
            && (t.originators == s.originators || t.originators == OriginatorPass(s.originators, p, prox).table)
            && (t.relays == s.relays
                || (NamedRelay(s.node, p.resolvedRelay).Some?
                    && t.relays == RelayPass(s.relays, NamedRelay(s.node, p.resolvedRelay).value, p, prox).table))
            && (t.dests == s.dests || t.dests == DestTablePass(s.dests, p, prox).table)
  {
    if Exempt(s, p) {
    } else {
      var booted := s.(lastEvent := None, admission := NoteBoot(s.admission, p.now));
      SenderFrames(ChargeDest(booted, p, prox).state, p, prox);
    }
  }

  lemma OriginatorEntryKept(e: Originator, kind: PortKind, now: u32)
    requires OriginatorOk(e)
    ensures OriginatorOk(e.Set(kind, e.Get(kind).Charge(TripOf(kind), ClearOf(kind), 1, now).bucket))
  {
    var b := e.Get(kind).Charge(TripOf(kind), ClearOf(kind), 1, now).bucket;
    assert b.clearThreshold == ClearOf(kind);
    assert forall k: PortKind :: e.Set(kind, b).Get(k) == if k == kind then b else e.Get(k);
  }

  lemma OriginatorsKept(table: seq<Originator>, p: Packet, prox: u32 -> Proximity)
    requires OriginatorsOk(table)
    ensures OriginatorsOk(OriginatorPass(table, p, prox).table)
  {
    var ids := OriginatorIds(table);
    SlotKeepsIds(ids, p.from, OriginatorRanks(table, p.now, prox), MAX_ORIGINATORS);
    var slot := OriginatorSlot(table, p.from, p.now, prox);
    if slot.Some? {
      var admitted := AdmitOriginator(table, slot.value, p.from, p.now);
      assert forall k: PortKind :: FreshOriginator(p.from, p.now).Get(k) == Fresh(p.now);
      assert forall i, k: PortKind :: 0 <= i < |table| ==>
        table[i].(lastSeen := p.now).Get(k) == table[i].Get(k);
      OriginatorEntryKept(admitted[slot.value], PortKindOf(p.port), p.now);
      var after := OriginatorPass(table, p, prox).table;
      assert OriginatorIds(after) == Place(ids, slot.value, p.from);
    }
  }

  lemma RelaysKept(table: seq<Relay>, id: u32, p: Packet, prox: u32 -> Proximity)
    requires RelaysOk(table)
    ensures RelaysOk(RelayPass(table, id, p, prox).table)
  {
    var ids := RelayIds(table);
    SlotKeepsIds(ids, id, RelayRanks(table, p.now, prox), MAX_RELAYS);
    var slot := RelaySlot(table, id, p.now, prox);
    if slot.Some? {
      assert RelayIds(RelayPass(table, id, p, prox).table) == Place(ids, slot.value, id);
    }
  }

  lemma DestPassKept(e: Dest, sender: Option<u32>, now: u32)
    requires DestOk(e)
    ensures DestOk(DestPass(e, sender, now).entry)
  {
  }

  lemma DestsKept(table: seq<Dest>, p: Packet, prox: u32 -> Proximity)
    requires DestsOk(table)
    ensures DestsOk(DestTablePass(table, p, prox).table)
  {
    var ids := DestIds(table);
    var after := DestTablePass(table, p, prox).table;
    if ChargesDest(p) {
      SlotKeepsIds(ids, p.to, DestRanks(table, p.now, prox), MAX_DESTS);
      var slot := DestSlot(table, p.to, p.now, prox);
      if slot.Some? {
        DestPassKept(AdmitDest(table, slot.value, p.to, p.now)[slot.value], Some(p.from), p.now);
        assert DestIds(after) == Place(ids, slot.value, p.to);
      }
    } else {
      var found := Find(ids, p.to);
      if found.Some? {
        DestPassKept(table[found.value], None, p.now);
        assert DestIds(after) == ids;
      }
    }
  }

  // ---- Admission ----

  lemma LatchKept(a: Admission, young: seq<Sighting>)
    requires AdmissionOk(a)
    requires |young| == |a.young| && forall i :: 0 <= i < |young| ==> young[i].id == a.young[i].id
    ensures AdmissionOk(a.(young := young))
  {
    assert YoungIds(young) == YoungIds(a.young);
  }

  lemma RemoveYoungKept(a: Admission, i: nat)
    requires AdmissionOk(a) && i < |a.young|
    ensures AdmissionOk(a.(young := SwapRemove(a.young, i)))
    ensures a.young[i].id !in YoungIds(SwapRemove(a.young, i))
    ensures forall id :: id in YoungIds(SwapRemove(a.young, i)) ==> id in YoungIds(a.young)
  {
    var young := SwapRemove(a.young, i);
    var ids, ids' := YoungIds(a.young), YoungIds(young);
    assert forall j :: 0 <= j < |young| ==> ids'[j] == (if j == i then ids[|young|] else ids[j]);
    assert ids[i] == a.young[i].id;
    forall j | 0 <= j < |young| ensures ids'[j] != ids[i] && ids'[j] in ids {
      assert ids[if j == i then |young| else j] != ids[i];
    }
  }

  /** Moving a sighting to the alumni list keeps the two lists apart, also when alumni are full. */
  lemma GraduateKept(a: Admission, i: nat)
    requires AdmissionOk(a) && i < |a.young|
    ensures var added := AddAlumni(a, a.young[i].id);
            AdmissionOk(added.(young := SwapRemove(added.young, i)))
  {
    RemoveYoungKept(a, i);
    var young := SwapRemove(a.young, i);
    forall j | 0 <= j < |young| ensures young[j].id != a.young[i].id {
      assert YoungIds(young)[j] == young[j].id;
    }
  }

  lemma InsertYoungKept(a: Admission, id: u32, now: u32)
    requires AdmissionOk(a)
    requires id !in YoungIds(a.young) && id !in a.alumni
    ensures AdmissionOk(InsertYoung(a, id, now))
  {
    var after := InsertYoung(a, id, now);
    if |a.young| < MAX_YOUNG {
      assert YoungIds(after.young) == YoungIds(a.young) + [id];
    }
  }

  lemma ExpireKept(a: Admission, id: u32, now: u32)
    requires AdmissionOk(a)
    ensures AdmissionOk(ExpireIfOld(a, id, now))
  {
    var found := Find(YoungIds(a.young), id);
    if found.Some? {
      var i := found.value;
      var latched := a.(young := a.young[i := a.young[i].Latch(now)]);
      LatchKept(a, latched.young);
      GraduateKept(latched, i);
    }
  }

  lemma NoteOriginatorKept(a: Admission, id: u32, now: u32)
    requires AdmissionOk(a)
    ensures AdmissionOk(NoteOriginator(a, id, now))
  {
    ExpireKept(a, id, now);
    var w := LatchWarm(ExpireIfOld(a, id, now), now);
    if id in YoungIds(w.young) || id in w.alumni {
    } else if !w.warmed {
      assert AdmissionOk(AddAlumni(w, id)) by {
        forall i | 0 <= i < |w.young| ensures w.young[i].id != id {
          assert YoungIds(w.young)[i] == w.young[i].id;
        }
      }
    } else if |w.young| < MAX_YOUNG {
      InsertYoungKept(w, id, now);
    } else {
      var aged := FirstAged(w.young, now);
      if aged.Some? {
        GraduateKept(w, aged.value);
        RemoveYoungKept(w, aged.value);
        assert YoungIds(w.young)[aged.value] == w.young[aged.value].id;
        var kept := AddAlumni(w, w.young[aged.value].id);
        InsertYoungKept(kept.(young := SwapRemove(kept.young, aged.value)), id, now);
      }
    }
  }

  lemma LatchYoungKept(a: Admission, id: u32, now: u32)
    requires AdmissionOk(a)
    ensures AdmissionOk(LatchYoung(a, id, now))
  {
    LatchKept(a, LatchYoung(a, id, now).young);
  }

  lemma ChargeYoungKept(s: Limiter, p: Packet)
    requires AdmissionOk(s.admission) && Threshold(s.youngBucket, YOUNG_CLEAR)
    ensures AdmissionOk(ChargeYoung(s, p).state.admission)
    ensures Threshold(ChargeYoung(s, p).state.youngBucket, YOUNG_CLEAR)
  {
    var w := LatchWarm(s.admission, p.now);
    LatchYoungKept(w, p.from, p.now);
    var y := LatchYoung(w, p.from, p.now);
    LatchKept(y, ScanLatch(y.young, p.now));
  }

  lemma SenderAdmissionKept(s: Limiter, p: Packet, prox: u32 -> Proximity)
    requires AdmissionOk(s.admission) && Threshold(s.youngBucket, YOUNG_CLEAR)
    ensures AdmissionOk(ChargeSender(s, p, prox).state.admission)
    ensures Threshold(ChargeSender(s, p, prox).state.youngBucket, YOUNG_CLEAR)
  {
    if PortKindOf(p.port) != Unknown {
      NoteOriginatorKept(s.admission, p.from, p.now);
      var noted := s.(admission := NoteOriginator(s.admission, p.from, p.now));
      ChargeYoungKept(ChargeOriginator(noted, p, prox).state, p);
    }
  }

  lemma AdmissionKept(s: Limiter, p: Packet, prox: u32 -> Proximity)
    requires AdmissionOk(s.admission) && Threshold(s.youngBucket, YOUNG_CLEAR)
    ensures AdmissionOk(ShouldDrop(s, p, prox).state.admission)
    ensures Threshold(ShouldDrop(s, p, prox).state.youngBucket, YOUNG_CLEAR)
  {
    if Exempt(s, p) {
    } else {
      var booted := s.(lastEvent := None, admission := NoteBoot(s.admission, p.now));
      SenderAdmissionKept(ChargeDest(booted, p, prox).state, p, prox);
    }
  }

  // ---- The invariant is kept by every operation ----

  lemma ApplyKept(s: Limiter, op: Op)
    requires Inv(s)
    ensures Inv(Apply(s, op))
  {
    match op
    case Receive(p, prox) =>
      Frames(s, p, prox);
      OriginatorsKept(s.originators, p, prox);
      var named := NamedRelay(s.node, p.resolvedRelay);
      if named.Some? { RelaysKept(s.relays, named.value, p, prox); }
      DestsKept(s.dests, p, prox);
      AdmissionKept(s, p, prox);
    case Query(p) =>
      LatchYoungKept(LatchWarm(s.admission, p.now), p.from, p.now);
    case Snapshot(now) =>
      LatchKept(LatchWarm(s.admission, now), LatchAll(s.admission.young, now));
    case _ =>
  }

  /** Keys are unique, counts stay within capacity and the lists stay apart in every reachable state. */
  lemma {:induction false} Reachable(node: u32, ops: seq<Op>)
    ensures Inv(Run(Initial(node), ops))
  {
    if ops == [] {
    } else {
      Reachable(node, ops[..|ops| - 1]);
      ApplyKept(Run(Initial(node), ops[..|ops| - 1]), ops[|ops| - 1]);
    }
  }

  // ---- The snapshot agrees with the live predicate ----

  lemma {:induction false} ActiveIdsAre(young: seq<Sighting>, now: u32)
    ensures forall id :: id in ActiveIds(young, now) <==>
              exists i :: 0 <= i < |young| && young[i].id == id && young[i].Active(now)
    ensures |ActiveIds(young, now)| + |AgedIds(young, now)| == |young|
  {
    if young == [] {
    } else {
      var n := |young| - 1;
      ActiveIdsAre(young[..n], now);
      forall id ensures id in ActiveIds(young, now) <==>
                        exists i :: 0 <= i < |young| && young[i].id == id && young[i].Active(now) {
        if id in ActiveIds(young[..n], now) {
          var i :| 0 <= i < n && young[..n][i].id == id && young[..n][i].Active(now);
          assert young[i].id == id && young[i].Active(now);
        }
        if i :| 0 <= i < |young| && young[i].id == id && young[i].Active(now) {
          if i < n { assert young[..n][i].id == id; }
        }
      }
    }
  }

  lemma GateMatches(s: Limiter, now: u32, id: u32)
    requires AdmissionOk(s.admission)
    requires id != 0
    ensures CoverageGate(s, now).Blocks(id) <==> GateOpen(s, now) && IsYoung(s.admission, id, now)
  {
    var a := s.admission;
    var ids := YoungIds(a.young);
    var found := Find(ids, id);
    ActiveIdsAre(a.young, now);
    if found.Some? {
      assert a.young[found.value].id == id;
      forall i | 0 <= i < |a.young| && a.young[i].id == id ensures i == found.value {
        assert ids[i] == id;
      }
    } else {
      forall i | 0 <= i < |a.young| ensures a.young[i].id != id {
        assert ids[i] == a.young[i].id;
      }
    }
    if |ActiveIds(a.young, now)| >= MAX_YOUNG {
      assert AgedIds(a.young, now) == [];
      assert found.Some? ==> a.young[found.value].Active(now) by {
        if found.Some? && !a.young[found.value].Active(now) {
          AllActive(a.young, now, found.value);
        }
      }
    }
  }

  lemma {:induction false} AllActive(young: seq<Sighting>, now: u32, i: nat)
    requires i < |young|
    requires AgedIds(young, now) == []
    ensures young[i].Active(now)
  {
    var n := |young| - 1;
    if i < n {
      AllActive(young[..n], now, i);
    }
  }

  lemma {:induction false} AllCounted(young: seq<Sighting>, now: u32)
    requires forall i :: 0 <= i < |young| ==> young[i].Active(now)
    ensures |ActiveIds(young, now)| == |young|
  {
    if young != [] {
      AllCounted(young[..|young| - 1], now);
    }
  }

  /**
   In every reachable state the coverage snapshot blocks exactly the nodes the live limiter
   treats as young while the young limit is in force.
   */
  lemma SnapshotAgrees(node: u32, ops: seq<Op>, now: u32, id: u32)
    requires id != 0
    ensures var s := Run(Initial(node), ops);
            CoverageGate(s, now).Blocks(id) <==>
              && s.enabled && WarmedUp(s.admission, now)
              && s.youngBucket.LimitedAt(now, YOUNG_CLEAR)
              && IsYoung(s.admission, id, now)
  {
    Reachable(node, ops);
    GateMatches(Run(Initial(node), ops), now, id);
  }

  // ---- The query never over-predicts ----

  /** Noting a young sender again leaves it young. */
  lemma NotingKeepsYoung(a: Admission, id: u32, now: u32)
    requires AdmissionOk(a)
    requires WarmedUp(a, now) && IsYoung(a, id, now)
    ensures WarmedUp(NoteOriginator(a, id, now), now) && IsYoung(NoteOriginator(a, id, now), id, now)
  {
    var ids := YoungIds(a.young);
    var found := Find(ids, id);
    if found.Some? {
      var i := found.value;
      assert a.young[i].Latch(now) == a.young[i];
      assert a.young[i := a.young[i]] == a.young;
      assert a.(young := a.young) == a;
    } else {
      ActiveIdsAre(a.young, now);
      assert AgedIds(a.young, now) == [];
      var aged := FirstAged(a.young, now);
      if aged.Some? {
        AllActive(a.young, now, aged.value);
        assert false;
      }
    }
  }

  lemma ZeroChargeKeepsBan(s: Limiter, p: Packet, prox: u32 -> Proximity)
    requires DestsOk(s.dests)
    requires p.onDefault && IsUnicast(p.to) && DestLimitedAt(s.dests, p.to, p.now)
    ensures ChargeDest(s, p, prox).drop
  {
    var i := Find(DestIds(s.dests), p.to).value;
    assert s.dests[i].id == p.to;
    RefusedExactly(s.dests[i].bucket, if s.dests[i].bucket.limited then DEST_TRIP else U32_MAX,
                   DEST_CLEAR, if ChargesDest(p) then 1 else 0, p.now);
    if !ChargesDest(p) {
      var c := DestPass(s.dests[i], None, p.now);
      assert DestIds(s.dests[i := c.entry]) == DestIds(s.dests);
    }
  }

  /** The parts of the query that do not concern relays: they hold for every packet. */
  ghost predicate WouldDropSender(s: Limiter, p: Packet) {
    && !Exempt(s, p)
    && (|| ToLimitedDest(s, p)
        || OriginatorWouldDrop(s, p)
        || (PortKindOf(p.port) != Unknown && WarmedUp(s.admission, p.now) && IsYoung(s.admission, p.from, p.now)
            && s.youngBucket.LimitedAt(p.now, YOUNG_CLEAR)))
  }

  lemma OriginatorBanRefuses(s: Limiter, p: Packet, prox: u32 -> Proximity)
    requires OriginatorsOk(s.originators)
    requires OriginatorWouldDrop(s, p)
    ensures OriginatorPass(s.originators, p, prox).refused
  {
    var kind := PortKindOf(p.port);
    var i := Find(OriginatorIds(s.originators), p.from).value;
    assert s.originators[i].id == p.from;
    assert Threshold(s.originators[i].Get(kind), ClearOf(kind));
    RefusedExactly(s.originators[i].Get(kind), TripOf(kind), ClearOf(kind), 1, p.now);
  }

  lemma YoungBanRefuses(s: Limiter, p: Packet, prox: u32 -> Proximity)
    requires AdmissionOk(s.admission) && Threshold(s.youngBucket, YOUNG_CLEAR)
    requires PortKindOf(p.port) != Unknown
    requires WarmedUp(s.admission, p.now) && IsYoung(s.admission, p.from, p.now)
    requires s.youngBucket.LimitedAt(p.now, YOUNG_CLEAR)
    ensures ChargeSender(s, p, prox).drop
  {
    NotingKeepsYoung(s.admission, p.from, p.now);
    RefusedExactly(s.youngBucket, YOUNG_TRIP, YOUNG_CLEAR, 1, p.now);
    var noted := s.(admission := NoteOriginator(s.admission, p.from, p.now));
    assert ChargeYoung(ChargeOriginator(noted, p, prox).state, p).drop;
  }

  lemma SenderPredictionHolds(s: Limiter, p: Packet, prox: u32 -> Proximity)
    requires Inv(s)
    requires WouldDropSender(s, p)
    ensures ShouldDrop(s, p, prox).drop
  {
    var booted := s.(lastEvent := None, admission := NoteBoot(s.admission, p.now));
    var d := ChargeDest(booted, p, prox);
    if ToLimitedDest(s, p) {
      if DestLimitedAt(s.dests, p.to, p.now) { ZeroChargeKeepsBan(booted, p, prox); }
    } else if OriginatorWouldDrop(s, p) {
      OriginatorBanRefuses(d.state, p, prox);
    } else {
      YoungBanRefuses(d.state, p, prox);
    }
  }

  /**
   In every reachable state, a packet the query would drop, and that is not a rebroadcast
   candidate, is dropped; the query itself changes no table, no bucket and no event.
   */
  lemma QueryNeverOverPredicts(node: u32, ops: seq<Op>, p: Packet, prox: u32 -> Proximity)
    requires !p.candidate
    ensures var s := Run(Initial(node), ops);
            && (WouldDrop(s, p).drop ==> ShouldDrop(s, p, prox).drop)
            && WouldDrop(s, p).state.(admission := s.admission) == s
  {
    Reachable(node, ops);
    var s := Run(Initial(node), ops);
    if WouldDrop(s, p).drop {
      SenderPredictionHolds(s, p, prox);
    }
  }

  // ---- Bans survive churn ----

  lemma LimitedOriginatorStays(table: seq<Originator>, p: Packet, prox: u32 -> Proximity, k: nat)
    requires OriginatorsOk(table) && k < |table|
    requires p.from != table[k].id && table[k].LimitedAt(p.now)
    ensures k < |OriginatorPass(table, p, prox).table| && OriginatorPass(table, p, prox).table[k] == table[k]
  {
    var ids := OriginatorIds(table);
    SlotKeepsIds(ids, p.from, OriginatorRanks(table, p.now, prox), MAX_ORIGINATORS);
    assert ids[k] == table[k].id;
    var found := Find(ids, table[k].id);
    assert found == Some(k) by { assert ids[found.value] == ids[k]; }
    assert OriginatorRanks(table, p.now, prox)[k].limited;
  }

  lemma LimitedRelayStays(table: seq<Relay>, id: u32, p: Packet, prox: u32 -> Proximity, k: nat)
    requires RelaysOk(table) && k < |table|
    requires id != table[k].id && table[k].bucket.LimitedAt(p.now, RELAY_CLEAR_FLOOR_MS)
    ensures k < |RelayPass(table, id, p, prox).table| && RelayPass(table, id, p, prox).table[k] == table[k]
  {
    var ids := RelayIds(table);
    SlotKeepsIds(ids, id, RelayRanks(table, p.now, prox), MAX_RELAYS);
    assert ids[k] == table[k].id;
    assert RelayRanks(table, p.now, prox)[k].limited;
  }

  lemma LimitedDestStays(table: seq<Dest>, p: Packet, prox: u32 -> Proximity, k: nat)
    requires DestsOk(table) && k < |table|
    requires p.to != table[k].id && table[k].bucket.LimitedAt(p.now, DEST_CLEAR)
    ensures k < |DestTablePass(table, p, prox).table| && DestTablePass(table, p, prox).table[k] == table[k]
  {
    var ids := DestIds(table);
    SlotKeepsIds(ids, p.to, DestRanks(table, p.now, prox), MAX_DESTS);
    assert ids[k] == table[k].id;
    assert DestRanks(table, p.now, prox)[k].limited;
  }

  /** Every packet of the run comes from somebody else while the originator is limited. */
  ghost predicate OthersWhileLimited(ops: seq<Op>, e: Originator) {
    forall i :: 0 <= i < |ops| && ops[i].Receive? ==>
      ops[i].packet.from != e.id && e.LimitedAt(ops[i].packet.now)
  }

  ghost predicate OtherRelaysWhileLimited(ops: seq<Op>, e: Relay) {
    forall i :: 0 <= i < |ops| && ops[i].Receive? ==>
      ops[i].packet.resolvedRelay != Some(e.id) && e.bucket.LimitedAt(ops[i].packet.now, RELAY_CLEAR_FLOOR_MS)
  }

  ghost predicate OtherDestsWhileLimited(ops: seq<Op>, e: Dest) {
    forall i :: 0 <= i < |ops| && ops[i].Receive? ==>
      ops[i].packet.to != e.id && e.bucket.LimitedAt(ops[i].packet.now, DEST_CLEAR)
  }

  lemma {:induction false} InvRun(s: Limiter, ops: seq<Op>)
    requires Inv(s)
    ensures Inv(Run(s, ops))
  {
    if ops == [] {
    } else {
      InvRun(s, ops[..|ops| - 1]);
      ApplyKept(Run(s, ops[..|ops| - 1]), ops[|ops| - 1]);
    }
  }

  /** A limited originator keeps its entry, untouched, through any churn of other identities. */
  lemma {:induction false} OriginatorBanSurvives(s: Limiter, ops: seq<Op>, k: nat)
    requires Inv(s) && k < |s.originators|
    requires OthersWhileLimited(ops, s.originators[k])
    ensures var t := Run(s, ops).originators; k < |t| && t[k] == s.originators[k]
  {
    if ops == [] {
    } else {
      var n := |ops| - 1;
      var before := Run(s, ops[..n]);
      InvRun(s, ops[..n]);
      OriginatorBanSurvives(s, ops[..n], k);
      if ops[n].Receive? {
        Frames(before, ops[n].packet, ops[n].prox);
        LimitedOriginatorStays(before.originators, ops[n].packet, ops[n].prox, k);
      }
    }
  }

  lemma {:induction false} RelayBanSurvives(s: Limiter, ops: seq<Op>, k: nat)
    requires Inv(s) && k < |s.relays|
    requires OtherRelaysWhileLimited(ops, s.relays[k])
    ensures var t := Run(s, ops).relays; k < |t| && t[k] == s.relays[k]
  {
    if ops == [] {
    } else {
      var n := |ops| - 1;
      var before := Run(s, ops[..n]);
      InvRun(s, ops[..n]);
      RelayBanSurvives(s, ops[..n], k);
      if ops[n].Receive? {
        Frames(before, ops[n].packet, ops[n].prox);
        var named := NamedRelay(before.node, ops[n].packet.resolvedRelay);
        if named.Some? { LimitedRelayStays(before.relays, named.value, ops[n].packet, ops[n].prox, k); }
      }
    }
  }

  lemma {:induction false} DestBanSurvives(s: Limiter, ops: seq<Op>, k: nat)
    requires Inv(s) && k < |s.dests|
    requires OtherDestsWhileLimited(ops, s.dests[k])
    ensures var t := Run(s, ops).dests; k < |t| && t[k] == s.dests[k]
  {
    if ops == [] {
    } else {
      var n := |ops| - 1;
      var before := Run(s, ops[..n]);
      InvRun(s, ops[..n]);
      DestBanSurvives(s, ops[..n], k);
      if ops[n].Receive? {
        Frames(before, ops[n].packet, ops[n].prox);
        LimitedDestStays(before.dests, ops[n].packet, ops[n].prox, k);
      }
    }
  }
}
