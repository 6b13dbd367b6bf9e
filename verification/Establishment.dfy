/**
 Established identities: once a node has graduated or was noted before the end of the warm-up, it is not young
 again, except through one documented drop that is characterised exactly.
 */
module Establishment {
  import opened Machine
  import opened Bucket
  import opened Limiter
  import opened LimiterRuns
  import opened DropDecision

  /** In the alumni list, or parked in the young list with its graduation latched. */
  ghost predicate Established(a: Admission, x: u32) {
    x in a.alumni || exists i :: 0 <= i < |a.young| && a.young[i].id == x && a.young[i].graduated
  }

  lemma OnlyOneSighting(a: Admission, i: nat, j: nat)
    requires AdmissionOk(a) && i < |a.young| && j < |a.young| && a.young[i].id == a.young[j].id
    ensures i == j
  {
    assert YoungIds(a.young)[i] == YoungIds(a.young)[j];
  }

  lemma EstablishedIsKnown(a: Admission, x: u32)
    requires Established(a, x)
    ensures x in a.alumni || x in YoungIds(a.young)
  {
    if x !in a.alumni {
      var i :| 0 <= i < |a.young| && a.young[i].id == x && a.young[i].graduated;
      assert YoungIds(a.young)[i] == x;
    }
  }

  /** An established node is young at no time, whatever the clock reads. */
  lemma EstablishedIsNotYoung(a: Admission, x: u32, now: u32)
    requires AdmissionOk(a) && Established(a, x)
    ensures !IsYoung(a, x, now)
  {
    EstablishedIsKnown(a, x);
    var found := Find(YoungIds(a.young), x);
    if found.Some? {
      assert a.young[found.value].id == x;
      if i :| 0 <= i < |a.young| && a.young[i].id == x && a.young[i].graduated {
        OnlyOneSighting(a, i, found.value);
      }
    }
  }

  // ---- Operations that only look ----

  /** The lists are as they were, but for graduations latched. */
  ghost predicate OnlyLatched(a: Admission, b: Admission) {
    && b.alumni == a.alumni && |b.young| == |a.young|
    && forall i :: 0 <= i < |a.young| ==>
         b.young[i].id == a.young[i].id && (a.young[i].graduated ==> b.young[i].graduated)
  }

  lemma LatchingKeeps(a: Admission, b: Admission, x: u32)
    requires OnlyLatched(a, b) && Established(a, x)
    ensures Established(b, x)
  {
    if x !in a.alumni {
      var i :| 0 <= i < |a.young| && a.young[i].id == x && a.young[i].graduated;
      assert b.young[i].graduated;
    }
  }

  /** Latching establishes nobody new, either. */
  lemma UnknownStaysUnknown(a: Admission, b: Admission, x: u32)
    requires OnlyLatched(a, b) && x !in a.alumni && x !in YoungIds(a.young)
    ensures !Established(b, x)
  {
    forall i | 0 <= i < |b.young| ensures b.young[i].id != x {
      assert YoungIds(a.young)[i] == b.young[i].id;
    }
  }

  /** The lists after looking at some of the young nodes. */
  ghost predicate Looked(a: Admission, b: Admission, now: u32) {
    && b.alumni == a.alumni && b.boot == a.boot && b.bootKnown == a.bootKnown && b.warmed == WarmedUp(a, now)
    && |b.young| == |a.young|
    && forall i :: 0 <= i < |a.young| ==> b.young[i] == a.young[i] || b.young[i] == a.young[i].Latch(now)
  }

  lemma LookedIsLatched(a: Admission, b: Admission, now: u32)
    requires Looked(a, b, now)
    ensures OnlyLatched(a, b)
  {
  }

  lemma AnnouncingLooksOnly(s: Limiter, now: u32, util: real)
    ensures var a, b := s.admission, MaybeAnnounce(s, now, util).admission;
            && b.alumni == a.alumni && b.boot == a.boot && b.bootKnown == a.bootKnown && b.warmed == a.warmed
            && |b.young| == |a.young|
            && forall i :: 0 <= i < |a.young| ==> b.young[i] == a.young[i] || b.young[i] == a.young[i].Latch(now)
  {
    hide ScanIds, AnyRelayLimited;
  }

  lemma YoungLooked(s: Limiter, p: Packet)
    ensures Looked(s.admission, ChargeYoung(s, p).state.admission, p.now)
  {
    var w := s.(admission := LatchWarm(s.admission, p.now));
    var y := w.(admission := LatchYoung(w.admission, p.from, p.now));
    assert Looked(s.admission, y.admission, p.now);
    var c := y.youngBucket.Charge(YOUNG_TRIP, YOUNG_CLEAR, 1, p.now);
    AnnouncingLooksOnly(y.(youngBucket := c.bucket, lastEvent := WithChange(y.lastEvent, c.change, 0, YoungLimit)),
                        p.now, p.util);
    hide IsYoung, MaybeAnnounce, LatchYoung, BucketState.Charge, WithChange, BucketState.LimitedAt;
  }

  // ---- Noting an originator ----

  /**
   The guard of the branch that forgets: a new identity after warm-up, both lists full, and `x` is the first
   parked entry.
   */
  predicate Forgets(a: Admission, id: u32, x: u32, now: u32) {
    && id !in YoungIds(a.young) && id !in a.alumni && WarmedUp(a, now)
    && |a.young| >= MAX_YOUNG && |a.alumni| >= MAX_ALUMNI
    && var aged := FirstAged(a.young, now); aged.Some? && a.young[aged.value].id == x
  }

  lemma SwapRemoveKeeps(young: seq<Sighting>, i: nat, j: nat)
    requires i < |young| && j < |young| && i != j
    ensures exists k :: 0 <= k < |SwapRemove(young, i)| && SwapRemove(young, i)[k] == young[j]
  {
    var k := if j == |young| - 1 then i else j;
    assert SwapRemove(young, i)[k] == young[j];
  }

  /** Expiring a node keeps every other established node, and the node itself. */
  lemma ExpiringKeeps(a: Admission, id: u32, x: u32, now: u32)
    requires AdmissionOk(a) && Established(a, x)
    ensures Established(ExpireIfOld(a, id, now), x)
  {
    var found := Find(YoungIds(a.young), id);
    if found.Some? && x !in a.alumni {
      var i := found.value;
      var j :| 0 <= j < |a.young| && a.young[j].id == x && a.young[j].graduated;
      var latched := a.(young := a.young[i := a.young[i].Latch(now)]);
      assert latched.young[j].id == x && latched.young[j].graduated;
      if i != j { SwapRemoveKeeps(latched.young, i, j); }
    }
  }

  /** Noting anybody keeps an established node established, exactly unless it forgets that node. */
  lemma NotingKeepsEstablished(a: Admission, id: u32, x: u32, now: u32)
    requires AdmissionOk(a) && Established(a, x)
    ensures Established(NoteOriginator(a, id, now), x) <==> !Forgets(a, id, x, now)
  {
    ExpiringKeeps(a, id, x, now);
    var ids := YoungIds(a.young);
    if id in ids || id in a.alumni {
      KnownStaysKnown(a, id, now);
    } else {
      assert ExpireIfOld(a, id, now) == a;
      EstablishedIsKnown(a, x);
      var w := LatchWarm(a, now);
      if w.warmed && |w.young| >= MAX_YOUNG && FirstAged(w.young, now).Some? {
        ReclaimKeeps(w, id, x, now, FirstAged(w.young, now).value);
      } else {
        AddingKeeps(w, id, x, now);
      }
    }
  }

  lemma KnownStaysKnown(a: Admission, id: u32, now: u32)
    requires id in YoungIds(a.young) || id in a.alumni
    ensures NoteOriginator(a, id, now) == ExpireIfOld(a, id, now)
  {
    var found := Find(YoungIds(a.young), id);
    if found.Some? {
      var i := found.value;
      var young := a.young[i := a.young[i].Latch(now)];
      assert YoungIds(young)[i] == id;
    }
  }

  lemma AddingKeeps(w: Admission, id: u32, x: u32, now: u32)
    requires Established(w, x)
    ensures Established(w, x) && Established(AddAlumni(w, id), x) && Established(InsertYoung(w, id, now), x)
  {
    if x !in w.alumni {
      var i :| 0 <= i < |w.young| && w.young[i].id == x && w.young[i].graduated;
      assert InsertYoung(w, id, now).young[i] == w.young[i];
    }
  }

  /** Reclaiming the slot of a parked entry: the entry moves to the alumni, or is dropped when they are full. */
  lemma ReclaimKeeps(w: Admission, id: u32, x: u32, now: u32, k: nat)
    requires AdmissionOk(w) && Established(w, x) && k < |w.young| && id != x
    ensures var kept := AddAlumni(w, w.young[k].id);
            var after := InsertYoung(kept.(young := SwapRemove(kept.young, k)), id, now);
            Established(after, x) <==> !(w.young[k].id == x && |w.alumni| >= MAX_ALUMNI)
  {
    var kept := AddAlumni(w, w.young[k].id);
    var removed := kept.(young := SwapRemove(kept.young, k));
    var after := InsertYoung(removed, id, now);
    if w.young[k].id == x {
      if |w.alumni| >= MAX_ALUMNI {
        RemoveYoungKept(w, k);
        forall i | 0 <= i < |after.young| ensures after.young[i].id != x {
          if i < |removed.young| { assert YoungIds(removed.young)[i] == after.young[i].id; }
        }
      }
    } else {
      if x !in w.alumni {
        var j :| 0 <= j < |w.young| && w.young[j].id == x && w.young[j].graduated;
        SwapRemoveKeeps(w.young, k, j);
      }
      AddingKeeps(removed, id, x, now);
    }
  }

  /** The lists after forgetting: the new identity takes the place, and the forgotten node is in neither list. */
  lemma ForgettingGives(a: Admission, id: u32, x: u32, now: u32)
    requires AdmissionOk(a) && Forgets(a, id, x, now)
    ensures var k := FirstAged(a.young, now).value; var after := NoteOriginator(a, id, now);
            && after.young == SwapRemove(a.young, k) + [Sighting(id, now, false)] && after.alumni == a.alumni
            && x !in after.alumni && x !in YoungIds(after.young)
  {
    assert ExpireIfOld(a, id, now) == a;
    var k := FirstAged(a.young, now).value;
    var removed := SwapRemove(a.young, k);
    assert YoungIds(a.young)[k] == x;
    RemoveYoungKept(a, k);
    assert YoungIds(removed + [Sighting(id, now, false)]) == YoungIds(removed) + [id];
  }

  /** The drop is real: the forgotten node counts as young again exactly if everybody else in the list is active. */
  lemma ForgottenIsYoungAgain(a: Admission, id: u32, x: u32, now: u32)
    requires AdmissionOk(a) && Forgets(a, id, x, now)
    ensures IsYoung(NoteOriginator(a, id, now), x, now)
            <==> forall i :: 0 <= i < |a.young| && a.young[i].id != x ==> a.young[i].Active(now)
  {
    ForgettingGives(a, id, x, now);
    var k := FirstAged(a.young, now).value;
    var removed, after := SwapRemove(a.young, k), NoteOriginator(a, id, now).young;
    assert Sighting(id, now, false).Active(now) by { assert WrappingSub(now, now) == 0; }
    hide NoteOriginator, Sighting.Active;
    FullExactly(after, now);
    assert (forall i :: 0 <= i < |removed| ==> removed[i].Active(now))
           <==> forall i :: 0 <= i < |a.young| && i != k ==> a.young[i].Active(now) by {
      RemovedActive(a.young, k, now);
    }
    forall i | 0 <= i < |a.young| ensures a.young[i].id == x <==> i == k {
      if a.young[i].id == x { OnlyOneSighting(a, i, k); }
    }
    assert forall i :: 0 <= i < |removed| ==> after[i] == removed[i];
    assert after[|removed|] == Sighting(id, now, false);
  }

  /** A full young list has as many active nodes as places exactly if all are active. */
  lemma FullExactly(young: seq<Sighting>, now: u32)
    ensures |ActiveIds(young, now)| >= |young| <==> forall i :: 0 <= i < |young| ==> young[i].Active(now)
  {
    ActiveIdsAre(young, now);
    if |ActiveIds(young, now)| >= |young| {
      assert AgedIds(young, now) == [];
      forall i | 0 <= i < |young| ensures young[i].Active(now) { AllActive(young, now, i); }
    }
    if forall i :: 0 <= i < |young| ==> young[i].Active(now) { AllCounted(young, now); }
  }

  lemma RemovedActive(young: seq<Sighting>, k: nat, now: u32)
    requires k < |young|
    ensures (forall i :: 0 <= i < |SwapRemove(young, k)| ==> SwapRemove(young, k)[i].Active(now))
            <==> forall i :: 0 <= i < |young| && i != k ==> young[i].Active(now)
  {
    var removed := SwapRemove(young, k);
    forall i | 0 <= i < |young| && i != k ensures exists j :: 0 <= j < |removed| && removed[j] == young[i] {
      SwapRemoveKeeps(young, k, i);
    }
    forall j | 0 <= j < |removed| ensures exists i :: 0 <= i < |young| && i != k && removed[j] == young[i] {
      var i := if j == k then |young| - 1 else j;
      assert removed[j] == young[i];
    }
  }

  // ---- Runs ----

  /** The packet gets as far as noting its originator. */
  predicate NotesOriginator(s: Limiter, p: Packet) {
    !Exempt(s, p) && !DestStops(s, p) && PortKindOf(p.port) != Unknown
  }

  /** The operation is a packet that reaches the forgetting branch for `x`. */
  ghost predicate OpForgets(s: Limiter, op: Op, x: u32) {
    && op.Receive? && NotesOriginator(s, op.packet)
    && Forgets(s.admission, op.packet.from, x, op.packet.now)
  }

  /** What a packet does to the lists. */
  lemma ReceiveLooks(s: Limiter, p: Packet, prox: u32 -> Proximity)
    requires Inv(s)
    ensures var b := NoteBoot(s.admission, p.now); var t := ShouldDrop(s, p, prox).state.admission;
            if NotesOriginator(s, p) then OnlyLatched(NoteOriginator(b, p.from, p.now), t) else t in {s.admission, b}
  {
    hide NoteOriginator, DestTablePass, ChargeSender, DestStops, OnlyLatched;
    if !Exempt(s, p) {
      var booted := s.(lastEvent := None, admission := NoteBoot(s.admission, p.now));
      var d := ChargeDest(booted, p, prox);
      DestDecides(booted, p, prox);
      assert DestStops(booted, p) <==> DestStops(s, p) by { DestStopsReads(booted, s, p); }
      assert d.state.admission == booted.admission;
      SenderLooks(d.state, p, prox);
    }
  }

  lemma DestStopsReads(s: Limiter, t: Limiter, p: Packet)
    requires s.originators == t.originators && s.dests == t.dests
    ensures DestStops(s, p) == DestStops(t, p)
  {
  }

  lemma SenderLooks(s: Limiter, p: Packet, prox: u32 -> Proximity)
    ensures var t := ChargeSender(s, p, prox).state.admission;
            if PortKindOf(p.port) == Unknown then t == s.admission
            else OnlyLatched(NoteOriginator(s.admission, p.from, p.now), t)
  {
    hide NoteOriginator, OriginatorPass, RelayPass, ChargeAirtime, IsYoung;
    if PortKindOf(p.port) != Unknown {
      var noted := s.(admission := NoteOriginator(s.admission, p.from, p.now));
      var o := ChargeOriginator(noted, p, prox).state;
      assert o.admission == noted.admission;
      YoungLooked(o, p);
      LookedIsLatched(o.admission, ChargeYoung(o, p).state.admission, p.now);
    }
  }

  /** One operation keeps an established node established, exactly unless it forgets it. */
  lemma OpKeepsEstablished(s: Limiter, op: Op, x: u32)
    requires Inv(s) && Established(s.admission, x)
    ensures Established(Apply(s, op).admission, x) <==> !OpForgets(s, op, x)
  {
    if op.Receive? {
      var p := op.packet;
      var b := NoteBoot(s.admission, p.now);
      var t := ShouldDrop(s, p, op.prox).state.admission;
      BootKeeps(s.admission, p.from, x, p.now);
      ReceiveLooks(s, p, op.prox);
      NotingKeepsEstablished(b, p.from, x, p.now);
      hide ShouldDrop, NoteOriginator, Forgets, Established, OnlyLatched, Inv, NotesOriginator, NoteBoot;
      if NotesOriginator(s, p) {
        if Forgets(b, p.from, x, p.now) {
          ForgettingGives(b, p.from, x, p.now);
          UnknownStaysUnknown(NoteOriginator(b, p.from, p.now), t, x);
        } else {
          LatchingKeeps(NoteOriginator(b, p.from, p.now), t, x);
        }
      }
    } else {
      LookingOnly(s, op);
      LatchingKeeps(s.admission, Apply(s, op).admission, x);
    }
  }

  lemma BootKeeps(a: Admission, id: u32, x: u32, now: u32)
    requires AdmissionOk(a) && Established(a, x)
    ensures var b := NoteBoot(a, now);
            AdmissionOk(b) && Established(b, x) && (Forgets(b, id, x, now) <==> Forgets(a, id, x, now))
  {
  }

  lemma LookingOnly(s: Limiter, op: Op)
    requires !op.Receive?
    ensures OnlyLatched(s.admission, Apply(s, op).admission)
  {
    hide IsYoung, OriginatorWouldDrop, RelayWouldDrop, ToLimitedDest;
  }

  /** No packet of the run reaches the forgetting branch for `x`; room in either list is enough. */
  ghost predicate NeverForgets(s: Limiter, ops: seq<Op>, x: u32) {
    forall k :: 0 <= k < |ops| ==> !OpForgets(Run(s, ops[..k]), ops[k], x)
  }

  lemma NeverForgetsPrefix(s: Limiter, ops: seq<Op>, n: nat, x: u32)
    requires NeverForgets(s, ops, x) && n <= |ops|
    ensures NeverForgets(s, ops[..n], x)
  {
    forall k | 0 <= k < n ensures !OpForgets(Run(s, ops[..n][..k]), ops[..n][k], x) {
      assert ops[..n][..k] == ops[..k];
    }
  }

  /**
   An established node stays established over any run that does not reach that branch: it is never young, so
   the shared bucket never charges it and the snapshot never blocks it, however the 32-bit clock wraps.
   */
  lemma {:induction false} EstablishedForever(s: Limiter, ops: seq<Op>, x: u32, now: u32)
    requires Inv(s) && Established(s.admission, x) && NeverForgets(s, ops, x)
    ensures Established(Run(s, ops).admission, x) && !IsYoung(Run(s, ops).admission, x, now)
    ensures !CoverageGate(Run(s, ops), now).Blocks(x)
    decreases |ops|
  {
    InvRun(s, ops);
    if ops != [] {
      var n := |ops| - 1;
      NeverForgetsPrefix(s, ops, n, x);
      EstablishedForever(s, ops[..n], x, now);
      InvRun(s, ops[..n]);
      OpKeepsEstablished(Run(s, ops[..n]), ops[n], x);
    }
    EstablishedIsNotYoung(Run(s, ops).admission, x, now);
    if x != 0 { GateMatches(Run(s, ops), now, x); }
  }

  /** And it is established after every operation exactly over the runs that never reach that branch. */
  lemma EstablishedThroughoutExactly(s: Limiter, ops: seq<Op>, x: u32)
    requires Inv(s) && Established(s.admission, x)
    ensures (forall k :: 0 <= k <= |ops| ==> Established(Run(s, ops[..k]).admission, x)) <==> NeverForgets(s, ops, x)
  {
    if NeverForgets(s, ops, x) {
      forall k | 0 <= k <= |ops| ensures Established(Run(s, ops[..k]).admission, x) {
        NeverForgetsPrefix(s, ops, k, x);
        EstablishedForever(s, ops[..k], x, 0);
      }
    }
    if forall k :: 0 <= k <= |ops| ==> Established(Run(s, ops[..k]).admission, x) {
      hide Established, OpForgets, Apply, Inv;
      forall k | 0 <= k < |ops| ensures !OpForgets(Run(s, ops[..k]), ops[k], x) {
        InvRun(s, ops[..k]);
        OpKeepsEstablished(Run(s, ops[..k]), ops[k], x);
        assert ops[..k + 1][..k] == ops[..k];
        assert Run(s, ops[..k + 1]) == Apply(Run(s, ops[..k]), ops[k]);
      }
    }
  }
}
