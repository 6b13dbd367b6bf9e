/**
 What looking at the young nodes leaves behind: exactly which sightings a snapshot, a query and a packet graduate for
 good, and what a packet makes of the bucket of unresolved relays.
 */
module Graduation {
  import opened Machine
  import opened Bucket
  import opened Limiter
  import opened LimiterRuns
  import opened DropDecision
  import opened Establishment
  import opened DropRules
  import opened LimiterRules

  /** Seen first half an hour ago or earlier, on the wrapping clock. */
  ghost predicate HalfAnHourOld(e: Sighting, now: u32) { WrappingSub(now, e.firstSeen) >= 1_800_000 }

  ghost predicate Stranger(a: Admission, id: u32) {
    id !in a.alumni && forall i :: 0 <= i < |a.young| ==> a.young[i].id != id
  }

  /** Only the sightings with the property graduate; ids, instants and order stay. */
  ghost predicate Graduates(a: seq<Sighting>, b: seq<Sighting>, grown: nat -> bool) {
    && |b| == |a|
    && forall i :: 0 <= i < |a| ==> b[i] == a[i].(graduated := a[i].graduated || grown(i))
  }

  /** An open snapshot graduates every node that is old enough; a closed one nobody. */
  lemma SnapshotGraduates(s: Limiter, now: u32)
    requires Inv(s)
    ensures var young := s.admission.young;
            Graduates(young, AfterGate(s, now).admission.young, (i: nat) =>
              i < |young| && HalfAnHourOld(young[i], now)
              && s.enabled && Warm(s.admission, now) && Stands(s.youngBucket, 12, now))
  {
    LimitedIs(s.youngBucket, YOUNG_CLEAR, now);
    hide Stands, BucketState.LimitedAt;
  }

  lemma {:induction false} AgedIdsAre(young: seq<Sighting>, now: u32, id: u32)
    ensures id in AgedIds(young, now) <==> exists i :: 0 <= i < |young| && young[i].id == id && !Recent(young[i], now)
  {
    if young != [] {
      var n := |young| - 1;
      var front := young[..n];
      AgedIdsAre(front, now, id);
      assert young[n].Active(now) <==> Recent(young[n], now);
      hide Recent, Sighting.Active;
      if i :| 0 <= i < n && front[i].id == id && !Recent(front[i], now) {
        assert young[i] == front[i];
      }
      if i :| 0 <= i < |young| && young[i].id == id && !Recent(young[i], now) {
        if i < n { assert front[i] == young[i]; }
      }
    }
  }

  /** The two lists of an open snapshot: who is young, and who is not any more. */
  lemma SnapshotLists(s: Limiter, now: u32, id: u32)
    requires Inv(s)
    ensures var gate := CoverageGate(s, now); var young := s.admission.young;
            && (gate.active <==> s.enabled && Warm(s.admission, now) && Stands(s.youngBucket, 12, now))
            && (id in gate.ids
                <==> gate.active && exists i :: 0 <= i < |young| && young[i].id == id && Recent(young[i], now))
            && (id in gate.established
                <==> gate.active && (id in s.admission.alumni
                                     || exists i :: 0 <= i < |young| && young[i].id == id && !Recent(young[i], now)))
  {
    var young := s.admission.young;
    LimitedIs(s.youngBucket, YOUNG_CLEAR, now);
    ActiveIdsAre(young, now);
    AgedIdsAre(young, now, id);
    forall i | 0 <= i < |young| ensures young[i].Active(now) <==> Recent(young[i], now) {}
    hide Stands, BucketState.LimitedAt, ActiveIds, AgedIds, Recent, Sighting.Active;
  }

  /**
   A query that no ban of destination or originator answers graduates its originator, or, for a stranger, every
   node of the list that is old enough.
   */
  lemma QueryGraduates(s: Limiter, p: Packet)
    requires Inv(s)
    ensures var young := s.admission.young;
            Graduates(young, WouldDrop(s, p).state.admission.young, (i: nat) =>
              i < |young| && HalfAnHourOld(young[i], p.now)
              && Governed(s, p) && !SilencedDest(s, p) && !SilencedOriginator(s, p)
              && p.port.Some? && Warm(s.admission, p.now)
              && (young[i].id == p.from || Stranger(s.admission, p.from)))
  {
    QueryLooks(s, p);
    LookingGraduates(LatchWarm(s.admission, p.now), p.from, p.now);
    hide WouldDrop, LatchYoung, SilencedDest, SilencedOriginator, Governed, Warm, HalfAnHourOld;
  }

  lemma QueryLooks(s: Limiter, p: Packet)
    requires Inv(s)
    ensures WouldDrop(s, p).state.admission.young
            == if Governed(s, p) && !SilencedDest(s, p) && !SilencedOriginator(s, p) && p.port.Some?
                  && Warm(s.admission, p.now) then LatchYoung(LatchWarm(s.admission, p.now), p.from, p.now).young
               else s.admission.young
  {
    if Governed(s, p) {
      OriginatorStopsIs(s, p);
      DestStopsIs(s, p);
      assert PortKindOf(p.port) != PortKind.Unknown <==> p.port.Some?;
      hide OriginatorWouldDrop, ToLimitedDest, RelayWouldDrop, SilencedDest, SilencedOriginator, IsYoung, LatchYoung,
           BucketState.LimitedAt, PortKindOf, Inv;
    }
  }

  lemma LookingGraduates(a: Admission, id: u32, now: u32)
    requires AdmissionOk(a)
    ensures LatchYoung(a, id, now) == a.(young := LatchYoung(a, id, now).young)
    ensures Graduates(a.young, LatchYoung(a, id, now).young, (i: nat) =>
              i < |a.young| && HalfAnHourOld(a.young[i], now) && (a.young[i].id == id || Stranger(a, id)))
  {
    var ids := YoungIds(a.young);
    var found := Find(ids, id);
    forall i | 0 <= i < |a.young| ensures a.young[i].id == id <==> found == Some(i) {
      assert ids[i] == a.young[i].id;
      if a.young[i].id == id { FoundIs(ids, id, i); }
    }
    hide Find, WrappingSub;
  }

  // ---- A packet ----

  /** Once its originator is noted, the packet's own question graduates nobody more. */
  lemma NotedLooksNoMore(a: Admission, id: u32, now: u32)
    requires AdmissionOk(a) && WarmedUp(a, now)
    ensures var n := LatchWarm(NoteOriginator(a, id, now), now); LatchYoung(n, id, now) == n
  {
    if id in YoungIds(a.young) {
      SeenLooksNoMore(a, id, now);
    } else if id !in a.alumni {
      StrangerLooksNoMore(a, id, now);
    } else {
      assert ExpireIfOld(a, id, now) == a;
    }
  }

  lemma SeenLooksNoMore(a: Admission, id: u32, now: u32)
    requires AdmissionOk(a) && WarmedUp(a, now) && id in YoungIds(a.young)
    ensures var n := LatchWarm(NoteOriginator(a, id, now), now); LatchYoung(n, id, now) == n
  {
    var i := Find(YoungIds(a.young), id).value;
    var latched := a.(young := a.young[i := a.young[i].Latch(now)]);
    assert a.young[i].id == id && YoungIds(latched.young) == YoungIds(a.young);
    if !a.young[i].Active(now) {
      LatchKept(a, latched.young);
      RemoveYoungKept(latched, i);
    }
  }

  lemma StrangerLooksNoMore(a: Admission, id: u32, now: u32)
    requires AdmissionOk(a) && WarmedUp(a, now) && id !in YoungIds(a.young) && id !in a.alumni
    ensures var n := LatchWarm(NoteOriginator(a, id, now), now); LatchYoung(n, id, now) == n
  {
    var w := LatchWarm(a, now);
    assert ExpireIfOld(a, id, now) == a;
    var aged := FirstAged(w.young, now);
    if |w.young| < MAX_YOUNG {
      InsertedLooksNoMore(w, id, now);
    } else if aged.Some? {
      var kept := AddAlumni(w, w.young[aged.value].id);
      RemoveYoungKept(w, aged.value);
      assert YoungIds(w.young)[aged.value] == w.young[aged.value].id;
      InsertedLooksNoMore(kept.(young := SwapRemove(kept.young, aged.value)), id, now);
    } else {
      assert LatchAll(w.young, now) == w.young;
    }
  }

  lemma InsertedLooksNoMore(a: Admission, id: u32, now: u32)
    requires |a.young| < MAX_YOUNG && id !in YoungIds(a.young)
    ensures var n := InsertYoung(a, id, now); LatchYoung(n, id, now) == n
  {
    var young := InsertYoung(a, id, now).young;
    assert YoungIds(young) == YoungIds(a.young) + [id];
    assert YoungIds(young)[..|a.young|] == YoungIds(a.young);
    FindIs(YoungIds(young), id, |a.young|);
    assert young[|a.young|] == Sighting(id, now, false) && WrappingSub(now, now) == 0;
  }

  /** Fewer than four of the nodes before it in the list are young: the announcement looks at it. */
  ghost predicate LookedAt(young: seq<Sighting>, now: u32, i: nat)
    requires i < |young|
  {
    |Recents(young[..i], now)| < 4
  }

  lemma AnnouncingGraduates(s: Limiter, now: u32, util: real)
    ensures var young := s.admission.young;
            && MaybeAnnounce(s, now, util).admission
               == s.admission.(young := MaybeAnnounce(s, now, util).admission.young)
            && Graduates(young, MaybeAnnounce(s, now, util).admission.young, (i: nat) =>
                 i < |young| && HalfAnHourOld(young[i], now) && MayAnnounce(s, now, util) && LookedAt(young, now, i))
  {
    var young := s.admission.young;
    AnnounceByRule(s, now, util);
    MayAnnounceIs(s, now, util);
    forall i | 0 <= i < |young| ensures |ScanIds(young, now, i)| < 4 <==> LookedAt(young, now, i) {
      ScanIsFirstFour(young, now, i);
    }
    hide ScanIds, LookedAt, MayAnnounce, AnyRelayLimited, WrappingSub;
  }

  lemma YoungPassGraduates(s: Limiter, p: Packet)
    requires var n := LatchWarm(s.admission, p.now); LatchYoung(n, p.from, p.now) == n
    ensures var young := s.admission.young;
            Graduates(young, ChargeYoung(s, p).state.admission.young, (i: nat) =>
              i < |young| && HalfAnHourOld(young[i], p.now) && LookedAt(young, p.now, i)
              && WarmedUp(s.admission, p.now) && IsYoung(s.admission, p.from, p.now)
              && ChangeRule(s.youngBucket, 48, 12, 1, p.now) == Tripped && MayAnnounce(s, p.now, p.util))
  {
    var w := s.(admission := LatchWarm(s.admission, p.now));
    var c := s.youngBucket.Charge(YOUNG_TRIP, YOUNG_CLEAR, 1, p.now);
    var charged := w.(youngBucket := c.bucket, lastEvent := WithChange(s.lastEvent, c.change, 0, YoungLimit));
    LatchIsNoLook(s.admission, p.from, p.now);
    ChargeByRule(s.youngBucket, YOUNG_TRIP, YOUNG_CLEAR, 1, p.now);
    AnnouncingGraduates(charged, p.now, p.util);
    MayAnnounceReads(charged, s, p.now, p.util);
    hide IsYoung, LatchYoung, MaybeAnnounce, BucketState.Charge, ChangeRule, MayAnnounce, LookedAt, WithChange,
         HalfAnHourOld;
  }

  /**
   A packet that gets past its destination graduates, besides what noting its originator does, the nodes that its
   announcement looks at.
   */
  lemma PacketGraduates(s: Limiter, p: Packet, prox: u32 -> Proximity)
    requires Inv(s) && Governed(s, p) && !SilencedDest(s, p) && !FillsDest(s, p) && p.port.Some?
    ensures var young := Noted(s, p).young;
            Graduates(young, ShouldDrop(s, p, prox).state.admission.young, (i: nat) =>
              i < |young| && HalfAnHourOld(young[i], p.now) && LookedAt(young, p.now, i)
              && TripsYoung(s, p) && MayAnnounce(s, p.now, p.util))
  {
    var booted := s.(lastEvent := None, admission := NoteBoot(s.admission, p.now));
    var d := ChargeDest(booted, p, prox);
    DestDecides(booted, p, prox);
    DestStopsReads(booted, s, p);
    DestStopsIs(s, p);
    assert d.state == booted.(dests := d.state.dests, lastEvent := d.state.lastEvent);
    SenderGraduates(s, d.state, p, prox);
    hide ChargeDest, ChargeSender, DestStops, SilencedDest, FillsDest, MayAnnounce, LookedAt, Noted, ChangeRule,
         NewNode, Warm, ToLimitedDest, Inv, HalfAnHourOld;
  }

  lemma SenderGraduates(s: Limiter, t: Limiter, p: Packet, prox: u32 -> Proximity)
    requires AdmissionOk(s.admission) && p.port.Some?
    requires t == s.(admission := NoteBoot(s.admission, p.now), dests := t.dests, lastEvent := t.lastEvent)
    ensures var young := Noted(s, p).young;
            Graduates(young, ChargeSender(t, p, prox).state.admission.young, (i: nat) =>
              i < |young| && HalfAnHourOld(young[i], p.now) && LookedAt(young, p.now, i)
              && Warm(s.admission, p.now) && NewNode(s.admission, p.from, p.now)
              && ChangeRule(s.youngBucket, 48, 12, 1, p.now) == Tripped && MayAnnounce(s, p.now, p.util))
  {
    assert PortKindOf(p.port) != PortKind.Unknown;
    var noted := t.(admission := Noted(s, p));
    var o := ChargeOriginator(noted, p, prox).state;
    var y := ChargeYoung(o, p).state;
    RelayAdmitsNothing(y, p, prox);
    hide OriginatorPass, MayAnnounce, ChangeRule, IsYoung, NoteOriginator, ChargeRelay, LatchYoung, HalfAnHourOld,
         LookedAt;
    assert o == noted.(originators := o.originators, lastEvent := o.lastEvent);
    MayAnnounceReads(o, s, p.now, p.util);
    NotedIsYoung(s.admission, p.from, p.now);
    if WarmedUp(o.admission, p.now) {
      assert WarmedUp(NoteBoot(s.admission, p.now), p.now) by {
        if !WarmedUp(NoteBoot(s.admission, p.now), p.now) {
          NotingWarmsNobody(NoteBoot(s.admission, p.now), p.from, p.now);
        }
      }
      NotedLooksNoMore(NoteBoot(s.admission, p.now), p.from, p.now);
      YoungPassGraduates(o, p);
    }
    hide ChargeOriginator, NewNode, Warm;
  }

  lemma RelayAdmitsNothing(s: Limiter, p: Packet, prox: u32 -> Proximity)
    ensures ChargeRelay(s, p, prox).state.admission == s.admission
  {
    hide RelayPass, ChargeAirtime, BucketState.Reopen;
  }

  // ---- Unresolved relays ----

  /** A bucket never used opens its window with the first packet it sees. */
  ghost function Opened(b: BucketState, now: u32): BucketState {
    if b.count == 0 && b.windowStart == 0 && !b.limited then b.(windowStart := now) else b
  }

  /** Candidates that nothing stopped before open the bucket; those of an established graph's unnamed relays use it. */
  lemma UnresolvedAfter(s: Limiter, p: Packet, prox: u32 -> Proximity)
    requires Inv(s)
    ensures ShouldDrop(s, p, prox).state.unresolved
            == if !Governed(s, p) || SenderRefused(s, p) || !p.candidate then s.unresolved
               else if Unnamed(s, p) && p.graphEstablished then
                 Opened(s.unresolved, p.now).Charge(AirtimeBudget(Airtime(p), p.util), AirtimeClear(Airtime(p), p.util),
                                                    Airtime(p), p.now).bucket
               else Opened(s.unresolved, p.now)
  {
    if Governed(s, p) {
      var booted := s.(lastEvent := None, admission := NoteBoot(s.admission, p.now));
      var d := ChargeDest(booted, p, prox);
      DestDecides(booted, p, prox);
      DestStopsReads(booted, s, p);
      DestStopsIs(s, p);
      assert d.state == booted.(dests := d.state.dests, lastEvent := d.state.lastEvent);
      SenderUnresolved(s, d.state, p, prox);
      OriginatorStopsIs(s, p);
      YoungStopsIs(s, p);
      hide ChargeDest, ChargeSender, DestStops, SilencedDest, FillsDest, SilencedOriginator, FillsOriginator,
           OriginatorStops, YoungStops, YoungRefused, ToLimitedDest, Inv, Opened, AirtimeBudget, AirtimeClear, Unnamed;
    }
  }

  lemma SenderUnresolved(s: Limiter, t: Limiter, p: Packet, prox: u32 -> Proximity)
    requires AdmissionOk(s.admission)
    requires t == s.(admission := NoteBoot(s.admission, p.now), dests := t.dests, lastEvent := t.lastEvent)
    ensures ChargeSender(t, p, prox).state.unresolved
            == if !p.candidate || OriginatorStops(s, p) || YoungStops(s, p) then s.unresolved
               else if Unnamed(s, p) && p.graphEstablished then
                 Opened(s.unresolved, p.now).Charge(AirtimeBudget(Airtime(p), p.util), AirtimeClear(Airtime(p), p.util),
                                                    Airtime(p), p.now).bucket
               else Opened(s.unresolved, p.now)
  {
    var decoded := PortKindOf(p.port) != PortKind.Unknown;
    var noted := if decoded then t.(admission := Noted(s, p)) else t;
    var o := ChargeOriginator(noted, p, prox);
    OriginatorDecides(s.originators, p, prox);
    assert o.drop <==> OriginatorStops(s, p);
    hide OriginatorPass, IsYoung, NoteOriginator, ChargeRelay, NoteBoot, Refuses;
    assert o.state.youngBucket == s.youngBucket && o.state.admission == noted.admission;
    assert o.state.unresolved == s.unresolved && o.state.node == s.node;
    if decoded {
      YoungReads(o.state, s.(admission := noted.admission), p);
      YoungDecides(s, p);
      YoungFrame(o.state, p);
      YoungUnresolved(o.state, p);
    }
    var y := if decoded then ChargeYoung(o.state, p) else Decision(o.state, false);
    assert y.drop <==> YoungStops(s, p);
    hide ChargeYoung, OriginatorStops, YoungStops, ChargeOriginator, AirtimeBudget, AirtimeClear, Opened, Unnamed;
    RelayUnresolved(y.state, s, p, prox);
  }

  lemma RelayUnresolved(t: Limiter, s: Limiter, p: Packet, prox: u32 -> Proximity)
    requires t.unresolved == s.unresolved && t.node == s.node
    ensures ChargeRelay(t, p, prox).state.unresolved
            == if Unnamed(s, p) && p.graphEstablished then
                 Opened(s.unresolved, p.now).Charge(AirtimeBudget(Airtime(p), p.util), AirtimeClear(Airtime(p), p.util),
                                                    Airtime(p), p.now).bucket
               else Opened(s.unresolved, p.now)
  {
    assert Opened(s.unresolved, p.now) == s.unresolved.Reopen(p.now);
    NamedIs(s, p);
    RelayBudgetsAre(Airtime(p), p.util);
    assert RelayAirtime(p) == Airtime(p);
    hide RelayPass, BucketState.Reopen, BucketState.Charge, RelayBudgets, AirtimeBudget, AirtimeClear, Unnamed,
         NamedRelay, Names, Opened;
  }
}
