/** Destination bans against the full history of charges: volume alone never bans, diversity does. */
module DestHistory {
  import opened Machine
  import opened Bucket
  import opened Limiter
  import opened LimiterRuns

  /** One pass over a destination, by a charging sender or by time alone. */
  datatype DestOp = DestOp(now: u32, sender: Option<u32>)

  /** All the passes since a destination got its table entry. */
  datatype Residence = Residence(since: u32, ops: seq<DestOp>) {
    function Then(op: DestOp): Residence { Residence(since, ops + [op]) }

    ghost function Before(): Residence
      requires ops != []
    {
      Residence(since, ops[..|ops| - 1])
    }
  }

  ghost predicate KnownSenders(r: Residence) {
    forall i :: 0 <= i < |r.ops| ==> r.ops[i].sender != Some(0)
  }

  /** The entry those passes produce. */
  ghost function Replay(id: u32, r: Residence): Dest
    decreases |r.ops|
  {
    if r.ops == [] then FreshDest(id, r.since)
    else
      var last := r.ops[|r.ops| - 1];
      DestPass(Replay(id, r.Before()), last.sender, last.now).entry
  }

  /** Who charged the destination since its window last rolled, in order, repeats included. */
  ghost function WindowCharges(id: u32, r: Residence): seq<u32>
    decreases |r.ops|
  {
    if r.ops == [] then []
    else
      var last := r.ops[|r.ops| - 1];
      var rolls := WrappingSub(last.now, Replay(id, r.Before()).bucket.windowStart) >= WINDOW_MS;
      (if rolls then [] else WindowCharges(id, r.Before()))
      + (if last.sender.Some? then [last.sender.value] else [])
  }

  /** A window with enough charges by enough different senders, or one that overflows the counter. */
  ghost predicate Diverse(charges: seq<u32>) {
    (|charges| >= DEST_TRIP && |Values(charges)| >= DEST_MIN_SENDERS) || |charges| >= U32_MAX
  }

  /** The bounded entry is an exact summary of the unbounded window. */
  ghost predicate Summarises(e: Dest, charges: seq<u32>) {
    && e.bucket.count == Min(|charges|, U32_MAX)
    && Covers(e.senders, Values(charges))
  }

  /** A sender list that covers its window up to its capacity. */
  ghost predicate Covers(senders: seq<u32>, values: set<u32>) {
    Distinct(senders) && Values(senders) <= values && |senders| == Min(|values|, DEST_SENDER_SLOTS)
  }

  lemma NoteSenderCovers(senders: seq<u32>, values: set<u32>, from: u32)
    requires from != 0
    requires Covers(senders, values)
    ensures Covers(NoteSender(senders, from), values + {from})
  {
    DistinctCardinality(senders);
    if from in values {
      assert values + {from} == values;
      if from !in senders {
        assert from !in Values(senders);
        SubsetSize(Values(senders), values);
      }
    } else {
      assert from !in Values(senders);
      assert Values(senders + [from]) == Values(senders) + {from};
    }
  }

  lemma {:induction false} EntrySummarisesWindow(id: u32, r: Residence)
    requires KnownSenders(r)
    ensures Summarises(Replay(id, r), WindowCharges(id, r))
    decreases |r.ops|
  {
    if r.ops == [] {
    } else {
      var last := r.ops[|r.ops| - 1];
      EntrySummarisesWindow(id, r.Before());
      PassSummarises(Replay(id, r.Before()), WindowCharges(id, r.Before()), last.sender, last.now);
    }
  }

  /** The window's charges after one more pass. */
  ghost function NextCharges(e: Dest, charges: seq<u32>, sender: Option<u32>, now: u32): seq<u32> {
    (if WrappingSub(now, e.bucket.windowStart) >= WINDOW_MS then [] else charges)
    + (if sender.Some? then [sender.value] else [])
  }

  lemma PassSummarises(e: Dest, charges: seq<u32>, sender: Option<u32>, now: u32)
    requires Summarises(e, charges)
    requires sender != Some(0)
    ensures Summarises(DestPass(e, sender, now).entry, NextCharges(e, charges, sender, now))
  {
    var rolls := WrappingSub(now, e.bucket.windowStart) >= WINDOW_MS;
    var kept := if rolls then [] else charges;
    var senders := if rolls then [] else e.senders;
    if sender.Some? {
      NoteSenderCovers(senders, Values(kept), sender.value);
      assert Values(kept + [sender.value]) == Values(kept) + {sender.value};
    } else {
      assert kept + [] == kept;
    }
  }

  /** A charge trips an unlimited destination exactly when its window is then diverse. */
  lemma ChargeTripsExactly(e: Dest, charges: seq<u32>, from: u32, now: u32)
    requires DestOk(e) && Summarises(e, charges) && from != 0
    ensures DestPass(e, Some(from), now).change == Tripped <==>
              !e.bucket.LimitedAt(now, DEST_CLEAR) && Diverse(NextCharges(e, charges, Some(from), now))
  {
    PassSummarises(e, charges, Some(from), now);
    var rolls := WrappingSub(now, e.bucket.windowStart) >= WINDOW_MS;
    if rolls && e.bucket.limited {
      assert NextCharges(e, charges, Some(from), now) == [from];
      assert Values([from]) == {from};
    }
  }

  lemma TimeNeverTrips(e: Dest, now: u32)
    requires DestOk(e)
    ensures DestPass(e, None, now).change != Tripped
  {
  }

  // ---- The history of a whole run ----

  type Ledger = map<u32, Residence>

  ghost function LedgerStep(s: Limiter, ledger: Ledger, p: Packet, prox: u32 -> Proximity): Ledger {
    if Exempt(s, p) || !IsUnicast(p.to) || !p.onDefault then ledger else LedgerPass(s.dests, ledger, p, prox)
  }

  ghost function RunLedger(s: Limiter, ops: seq<Op>): Ledger {
    if ops == [] then map[]
    else
      var n := |ops| - 1;
      var before := RunLedger(s, ops[..n]);
      if ops[n].Receive? then LedgerStep(Run(s, ops[..n]), before, ops[n].packet, ops[n].prox) else before
  }

  /** Every destination entry is what its recorded passes produce. */
  ghost predicate Recorded(dests: seq<Dest>, ledger: Ledger) {
    forall i :: 0 <= i < |dests| ==>
      && dests[i].id in ledger
      && KnownSenders(ledger[dests[i].id])
      && dests[i] == Replay(dests[i].id, ledger[dests[i].id])
  }

  lemma ReplayThen(id: u32, r: Residence, op: DestOp)
    ensures Replay(id, r.Then(op)) == DestPass(Replay(id, r), op.sender, op.now).entry
    ensures WindowCharges(id, r.Then(op)) == NextCharges(Replay(id, r), WindowCharges(id, r), op.sender, op.now)
  {
    assert r.Then(op).Before() == r;
  }

  lemma KnownEntryRecorded(table: seq<Dest>, ledger: Ledger, k: nat, op: DestOp)
    requires Distinct(DestIds(table)) && Recorded(table, ledger) && k < |table|
    requires op.sender != Some(0)
    ensures Recorded(table[k := DestPass(table[k], op.sender, op.now).entry],
                     ledger[table[k].id := ledger[table[k].id].Then(op)])
  {
    ReplayThen(table[k].id, ledger[table[k].id], op);
    forall i | 0 <= i < |table| && i != k ensures table[i].id != table[k].id {
      assert DestIds(table)[i] != DestIds(table)[k];
    }
  }

  lemma NewEntryRecorded(table: seq<Dest>, ledger: Ledger, k: nat, id: u32, op: DestOp)
    requires Recorded(table, ledger) && k <= |table| && id !in DestIds(table)
    requires op.sender != Some(0)
    ensures Recorded(Place(table, k, DestPass(FreshDest(id, op.now), op.sender, op.now).entry),
                     ledger[id := Residence(op.now, [op])])
  {
    ReplayThen(id, Residence(op.now, []), op);
    assert Residence(op.now, []).Then(op) == Residence(op.now, [op]);
    forall i | 0 <= i < |table| ensures table[i].id != id {
      assert DestIds(table)[i] == table[i].id;
    }
  }

  /** The ledger's account of one pass over the destination table. */
  ghost function LedgerPass(table: seq<Dest>, ledger: Ledger, p: Packet, prox: u32 -> Proximity): Ledger {
    if p.to in DestIds(table) then
      var sofar := if p.to in ledger then ledger[p.to] else Residence(0, []);
      ledger[p.to := sofar.Then(DestOp(p.now, if ChargesDest(p) then Some(p.from) else None))]
    else if ChargesDest(p) && DestSlot(table, p.to, p.now, prox).Some? then
      ledger[p.to := Residence(p.now, [DestOp(p.now, Some(p.from))])]
    else ledger
  }

  lemma TablePassRecorded(table: seq<Dest>, ledger: Ledger, p: Packet, prox: u32 -> Proximity)
    requires Distinct(DestIds(table)) && Recorded(table, ledger) && p.from != 0
    ensures Recorded(DestTablePass(table, p, prox).table, LedgerPass(table, ledger, p, prox))
  {
    var found := Find(DestIds(table), p.to);
    if found.Some? {
      assert table[found.value].id == p.to;
      KnownEntryRecorded(table, ledger, found.value,
                         DestOp(p.now, if ChargesDest(p) then Some(p.from) else None));
    } else if ChargesDest(p) && DestSlot(table, p.to, p.now, prox).Some? {
      var k := DestSlot(table, p.to, p.now, prox).value;
      NewEntryRecorded(table, ledger, k, p.to, DestOp(p.now, Some(p.from)));
      assert k < |table| ==> DestIds(table)[k] == table[k].id;
      assert AdmitDest(table, k, p.to, p.now)[k] == FreshDest(p.to, p.now);
      assert DestTablePass(table, p, prox).table ==
             Place(table, k, DestPass(FreshDest(p.to, p.now), Some(p.from), p.now).entry);
    }
  }

  /** Exactly which destination pass a packet makes. */
  lemma DestsTouched(s: Limiter, p: Packet, prox: u32 -> Proximity)
    ensures ShouldDrop(s, p, prox).state.dests ==
            if Exempt(s, p) || !IsUnicast(p.to) || !p.onDefault then s.dests
            else DestTablePass(s.dests, p, prox).table
  {
    if Exempt(s, p) {
    } else {
      var booted := s.(lastEvent := None, admission := NoteBoot(s.admission, p.now));
      SenderFrames(ChargeDest(booted, p, prox).state, p, prox);
    }
  }

  lemma {:induction false} RunRecorded(node: u32, ops: seq<Op>)
    ensures Recorded(Run(Initial(node), ops).dests, RunLedger(Initial(node), ops))
  {
    if ops == [] {
    } else {
      var n := |ops| - 1;
      Reachable(node, ops[..n]);
      RunRecorded(node, ops[..n]);
      if ops[n].Receive? {
        var s, p := Run(Initial(node), ops[..n]), ops[n].packet;
        DestsTouched(s, p, ops[n].prox);
        if !Exempt(s, p) { TablePassRecorded(s.dests, RunLedger(Initial(node), ops[..n]), p, ops[n].prox); }
      }
    }
  }

  // ---- Destination trips ----

  ghost predicate IsDestTrip(e: Option<Event>) {
    e.Some? && e.value.Trip? && e.value.kind == DestLimit
  }

  lemma YoungEvents(s: Limiter, p: Packet)
    requires !IsDestTrip(s.lastEvent)
    ensures !IsDestTrip(ChargeYoung(s, p).state.lastEvent)
  {
  }

  lemma RelayEvents(s: Limiter, p: Packet, prox: u32 -> Proximity)
    requires !IsDestTrip(s.lastEvent)
    ensures !IsDestTrip(ChargeRelay(s, p, prox).state.lastEvent)
  {
  }

  lemma SenderEvents(s: Limiter, p: Packet, prox: u32 -> Proximity)
    requires !IsDestTrip(s.lastEvent)
    ensures !IsDestTrip(ChargeSender(s, p, prox).state.lastEvent)
  {
    var decoded := PortKindOf(p.port) != Unknown;
    var noted := if decoded then s.(admission := NoteOriginator(s.admission, p.from, p.now)) else s;
    var byOriginator := ChargeOriginator(noted, p, prox);
    assert !IsDestTrip(byOriginator.state.lastEvent);
    var byYoung := if decoded then ChargeYoung(byOriginator.state, p) else Decision(byOriginator.state, false);
    YoungEvents(byOriginator.state, p);
    RelayEvents(byYoung.state, p, prox);
  }

  lemma DestTripEvent(s: Limiter, p: Packet, prox: u32 -> Proximity)
    ensures IsDestTrip(ShouldDrop(s, p, prox).state.lastEvent) <==>
              !Exempt(s, p) && IsUnicast(p.to) && p.onDefault && DestTablePass(s.dests, p, prox).change == Tripped
    ensures IsDestTrip(ShouldDrop(s, p, prox).state.lastEvent) ==>
              ShouldDrop(s, p, prox).state.lastEvent == Some(Trip(p.to, DestLimit))
  {
    if Exempt(s, p) {
    } else {
      var booted := s.(lastEvent := None, admission := NoteBoot(s.admission, p.now));
      var d := ChargeDest(booted, p, prox);
      var c := DestTablePass(s.dests, p, prox);
      if IsUnicast(p.to) && p.onDefault && c.change == Tripped {
        TrippedPassRefuses(s.dests, p, prox);
      } else {
        assert !IsDestTrip(d.state.lastEvent);
        SenderEvents(d.state, p, prox);
      }
    }
  }

  lemma TrippedPassRefuses(table: seq<Dest>, p: Packet, prox: u32 -> Proximity)
    requires DestTablePass(table, p, prox).change == Tripped
    ensures DestTablePass(table, p, prox).refused
  {
    if !ChargesDest(p) {
      var found := Find(DestIds(table), p.to).value;
      assert table[found].id == p.to;
      assert DestIds(DestTablePass(table, p, prox).table) == DestIds(table);
    }
  }

  /**
   In every reachable state, a packet trips the ban of its destination exactly when it is a
   chargeable packet that gets a table entry, the destination is not limited already, and the
   charges of the current window, this one included, number at least 20 from at least 3 senders.
   (The one exception is a window of 2^32 - 1 charges, which saturates the counter.)
   */
  lemma DestTripNeedsDiversity(node: u32, ops: seq<Op>, p: Packet, prox: u32 -> Proximity)
    ensures var s := Run(Initial(node), ops);
            var ledger := LedgerStep(s, RunLedger(Initial(node), ops), p, prox);
            IsDestTrip(ShouldDrop(s, p, prox).state.lastEvent) <==>
              && !Exempt(s, p) && ChargesDest(p)
              && DestSlot(s.dests, p.to, p.now, prox).Some?
              && !DestLimitedAt(s.dests, p.to, p.now)
              && p.to in ledger && Diverse(WindowCharges(p.to, ledger[p.to]))
  {
    var s := Run(Initial(node), ops);
    var ledger := RunLedger(Initial(node), ops);
    Reachable(node, ops);
    RunRecorded(node, ops);
    DestTripEvent(s, p, prox);
    if !Exempt(s, p) && IsUnicast(p.to) && p.onDefault {
      var found := Find(DestIds(s.dests), p.to);
      if !ChargesDest(p) {
        if found.Some? { TimeNeverTrips(s.dests[found.value], p.now); }
      } else if found.Some? {
        assert s.dests[found.value].id == p.to;
        EntrySummarisesWindow(p.to, ledger[p.to]);
        ReplayThen(p.to, ledger[p.to], DestOp(p.now, Some(p.from)));
        ChargeTripsExactly(s.dests[found.value], WindowCharges(p.to, ledger[p.to]), p.from, p.now);
      } else if DestSlot(s.dests, p.to, p.now, prox).Some? {
        var empty := Residence(p.now, []);
        EntrySummarisesWindow(p.to, empty);
        ReplayThen(p.to, empty, DestOp(p.now, Some(p.from)));
        assert empty.Then(DestOp(p.now, Some(p.from))) == Residence(p.now, [DestOp(p.now, Some(p.from))]);
        ChargeTripsExactly(FreshDest(p.to, p.now), [], p.from, p.now);
        NewEntryPass(s.dests, p, prox);
      }
    }
  }

  lemma NewEntryPass(table: seq<Dest>, p: Packet, prox: u32 -> Proximity)
    requires ChargesDest(p) && Find(DestIds(table), p.to).None?
    requires DestSlot(table, p.to, p.now, prox).Some?
    ensures DestTablePass(table, p, prox).change == DestPass(FreshDest(p.to, p.now), Some(p.from), p.now).change
  {
    var i := DestSlot(table, p.to, p.now, prox).value;
    assert i < |table| ==> DestIds(table)[i] == table[i].id;
  }
}
