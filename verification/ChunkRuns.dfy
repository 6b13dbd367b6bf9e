/**
 What a receiver of at most four senders hands over after any arrivals, well formed or not: exactly the lists whose
 chunks came in one unbroken run.
 */
module ChunkRuns {
  import opened Machine
  import opened TopologyChunks

  /** A list of at most twenty-eight ids goes in one packet; a longer one in two, the first of them full. */
  lemma BuiltInHalves(list: seq<u32>, version: u8, index: nat)
    requires |list| <= 40
    ensures BuildChunk(list, version, index)
            == if |list| <= 28 then if index == 0 then Some(Chunk(version, 0, false, false, list)) else None
               else if index == 0 then Some(Chunk(version, 0, true, false, list[..28]))
               else if index == 1 then Some(Chunk(version, 1, false, true, list[28..]))
               else None
  {
    if BuildChunk(list, version, index).Some? {
      ChunkIs(list, version, index);
    }
  }

  /** The header byte of a chunk: whether the sender routes, whether more is to come, whether it goes on, its index. */
  lemma HeaderBits(c: Chunk, active: bool)
    ensures var b := FlagByte(c, active);
            && (b % 2 == 1 <==> active) && (b / 2 % 2 == 1 <==> c.more) && (b / 4 % 2 == 1 <==> c.continuation)
            && b / 8 == c.index
  {
    var low := if active then 1 else 0;
    var mid, high := if c.more then 1 else 0, if c.continuation then 1 else 0;
    var b := FlagByte(c, active);
    assert b == low + 2 * (mid + 2 * high + 4 * c.index);
    assert b / 2 == mid + 2 * (high + 2 * c.index);
    assert b / 4 == high + 2 * c.index;
    hide FlagByte;
  }

  /** A sender's chunks since its last one that began a list. */
  ghost function OwnRun(arrivals: seq<Arrival>, x: u32): seq<Chunk> {
    if arrivals == [] then []
    else
      var n := |arrivals| - 1;
      var run, a := OwnRun(arrivals[..n], x), arrivals[n];
      if a.sender != x then run
      else if !a.chunk.continuation then [a.chunk]
      else if run == [] then []
      else run + [a.chunk]
  }

  ghost function Ids(run: seq<Chunk>): seq<u32> {
    if run == [] then [] else Ids(run[..|run| - 1]) + run[|run| - 1].ids
  }

  /** Chunks 0, 1, 2, ... of one version, each announcing the next, of no more ids than a list may have. */
  ghost predicate Unbroken(run: seq<Chunk>) {
    && run != [] && !run[0].continuation
    && (forall i :: 0 <= i < |run| ==> run[i].index == i && run[i].version == run[0].version)
    && (forall i :: 0 <= i < |run| - 1 ==> run[i].more)
    && |Ids(run)| <= 40
  }

  /** A list of which more is to come. */
  ghost predicate Collecting(run: seq<Chunk>) { Unbroken(run) && run[|run| - 1].more }

  /** The slot of a sender that is collecting; a sender that is not has none. */
  ghost predicate Kept(slots: seq<Pending>, x: u32, run: seq<Chunk>) {
    if Collecting(run) then
      exists i :: 0 <= i < |slots| && slots[i] == Pending(x, run[0].version, Ids(run), true, |run|)
    else !Owns(slots, x)
  }

  ghost predicate AllKept(slots: seq<Pending>, senders: set<u32>, arrivals: seq<Arrival>) {
    && |slots| == PENDING_SLOTS && Orderly(slots, senders)
    && forall x :: x in senders ==> Kept(slots, x, OwnRun(arrivals, x))
  }

  /** What one chunk of a sender makes of its run. */
  ghost function NextRun(run: seq<Chunk>, c: Chunk): seq<Chunk> {
    if !c.continuation then [c] else if run == [] then [] else run + [c]
  }

  /** The list that is complete with this run, if any; the empty list of version 0 is a restart instead. */
  ghost function Complete(run: seq<Chunk>): Option<seq<u32>> {
    if Unbroken(run) && !run[|run| - 1].more && !(|run| == 1 && run[0].ids == [] && run[0].version == 0) then
      Some(Ids(run))
    else None
  }

  lemma OneId(c: Chunk)
    ensures Ids([c]) == c.ids
  {
    assert [c][..0] == [] && [] + c.ids == c.ids;
  }

  lemma RunGoesOn(run: seq<Chunk>, c: Chunk)
    requires run != []
    ensures Ids(run + [c]) == Ids(run) + c.ids
    ensures Unbroken(run + [c])
            <==> Collecting(run) && c.index == |run| && c.version == run[0].version && |Ids(run) + c.ids| <= 40
  {
    var next := run + [c];
    assert next[..|next| - 1] == run;
    hide Ids;
    if Unbroken(next) {
      assert forall i :: 0 <= i < |run| ==> next[i] == run[i];
      assert next[|run| - 1].more && next[|run|] == c;
      forall i | 0 <= i < |run| - 1 ensures run[i].more { assert next[i].more; }
      forall i | 0 <= i < |run| ensures run[i].index == i && run[i].version == run[0].version {
        assert next[i].index == i && next[i].version == next[0].version;
      }
    }
  }

  /** A chunk that begins a list. */
  lemma FirstChunkKept(slots: seq<Pending>, senders: set<u32>, x: u32, c: Chunk)
    requires |slots| == PENDING_SLOTS && Orderly(slots, senders) && |senders| <= PENDING_SLOTS && x in senders
    requires !c.continuation
    ensures Kept(Merge(slots, x, c).slots, x, [c]) && Merge(slots, x, c).handed == Complete([c])
  {
    OneId(c);
    RoomForFour(slots, senders, x);
    var i, after := SlotOf(slots, x), Merge(slots, x, c).slots;
    assert [] + c.ids == c.ids;
    assert forall j :: 0 <= j < PENDING_SLOTS && j != i ==> after[j] == slots[j];
    assert forall j :: 0 <= j < PENDING_SLOTS && j != i && slots[j].valid ==> slots[j].sender != x;
    if Collecting([c]) { assert after[i] == Pending(x, c.version, c.ids, true, 1); }
  }

  /** What a chunk does to the sender's own slot. */
  lemma OwnedMerge(slots: seq<Pending>, x: u32, c: Chunk, i: nat)
    requires |slots| == PENDING_SLOTS && FirstOf(slots, x, 0) == Some(i) && c.continuation && |slots[i].ids| <= 40
    ensures var p := slots[i]; var q := p.(ids := p.ids + c.ids, next := p.next + 1);
            var m := Merge(slots, x, c);
            if p.version == c.version && c.index == p.next && |q.ids| <= 40 then
              && m.slots == slots[i := if c.more then q else q.(valid := false)]
              && m.handed == (if c.more then None else Some(q.ids))
            else m.handed == None && !m.slots[i].valid && m.slots == slots[i := m.slots[i]]
  {
  }

  /** A slot that is replaced or spoilt: the sender has that slot afterwards or none. */
  lemma OneSlotKept(slots: seq<Pending>, senders: set<u32>, x: u32, i: nat, q: Pending)
    requires Orderly(slots, senders) && i < |slots| && slots[i].valid && slots[i].sender == x
    requires q.valid ==> q.sender == x
    ensures Owns(slots[i := q], x) <==> q.valid
  {
    var after := slots[i := q];
    if q.valid { assert after[i].valid; }
  }

  /** A chunk that goes on with a list. */
  lemma LaterChunkKept(slots: seq<Pending>, senders: set<u32>, x: u32, run: seq<Chunk>, c: Chunk)
    requires |slots| == PENDING_SLOTS && Orderly(slots, senders) && Kept(slots, x, run) && c.continuation
    ensures Kept(Merge(slots, x, c).slots, x, NextRun(run, c))
    ensures Merge(slots, x, c).handed == Complete(NextRun(run, c))
  {
    if run != [] { RunGoesOn(run, c); }
    if Collecting(run) {
      GoesOn(slots, senders, x, run, c);
    } else {
      assert Merge(slots, x, c) == Merged(slots, None);
      hide Merge, Owns;
    }
  }

  lemma GoesOn(slots: seq<Pending>, senders: set<u32>, x: u32, run: seq<Chunk>, c: Chunk)
    requires |slots| == PENDING_SLOTS && Orderly(slots, senders) && Kept(slots, x, run) && c.continuation
    requires Collecting(run)
    ensures Kept(Merge(slots, x, c).slots, x, run + [c]) && Merge(slots, x, c).handed == Complete(run + [c])
  {
    var next, m := run + [c], Merge(slots, x, c);
    RunGoesOn(run, c);
    assert run != [] && |Ids(run)| <= 40;
    assert Collecting(next) <==> Unbroken(next) && c.more;
    assert next[0] == run[0] && next[|next| - 1] == c && |next| > 1;
    var i :| 0 <= i < |slots| && slots[i] == Pending(x, run[0].version, Ids(run), true, |run|);
    assert FirstOf(slots, x, 0) == Some(i);
    hide Merge, Collecting, Unbroken, Ids;
    OwnedMerge(slots, x, c, i);
    OneSlotKept(slots, senders, x, i, m.slots[i]);
    hide Owns, Orderly, FirstOf;
  }

  /** A chunk of somebody else. */
  lemma OthersKept(slots: seq<Pending>, senders: set<u32>, x: u32, run: seq<Chunk>, sender: u32, c: Chunk)
    requires |slots| == PENDING_SLOTS && Orderly(slots, senders) && |senders| <= PENDING_SLOTS
    requires sender in senders && x != sender && Kept(slots, x, run)
    ensures Kept(Merge(slots, sender, c).slots, x, run)
  {
    var after := Merge(slots, sender, c).slots;
    MergeKeepsOrder(slots, senders, sender, c);
    TouchesOwnOnly(slots, sender, c);
    hide Merge, Collecting, Ids;
    if Collecting(run) {
      var i :| 0 <= i < |slots| && slots[i] == Pending(x, run[0].version, Ids(run), true, |run|);
      assert after[i] == slots[i];
    }
  }

  lemma TouchesOwnOnly(slots: seq<Pending>, sender: u32, c: Chunk)
    requires |slots| == PENDING_SLOTS
    ensures var after := Merge(slots, sender, c).slots;
            forall i :: 0 <= i < PENDING_SLOTS ==> after[i] == slots[i] || after[i].sender == sender
  {
  }

  lemma ArrivalKept(slots: seq<Pending>, senders: set<u32>, arrivals: seq<Arrival>, a: Arrival)
    requires AllKept(slots, senders, arrivals) && |senders| <= PENDING_SLOTS && a.sender in senders
    ensures AllKept(Merge(slots, a.sender, a.chunk).slots, senders, arrivals + [a])
    ensures Merge(slots, a.sender, a.chunk).handed == Complete(OwnRun(arrivals + [a], a.sender))
  {
    var x, c, run := a.sender, a.chunk, OwnRun(arrivals, a.sender);
    MergeKeepsOrder(slots, senders, x, c);
    forall y
      ensures OwnRun(arrivals + [a], y) == if y == x then NextRun(OwnRun(arrivals, y), c) else OwnRun(arrivals, y)
    {
      assert (arrivals + [a])[..|arrivals|] == arrivals;
    }
    assert Kept(slots, x, run);
    hide Merge, OwnRun, Kept, Orderly, Complete;
    if c.continuation { LaterChunkKept(slots, senders, x, run, c); } else { FirstChunkKept(slots, senders, x, c); }
    forall y | y in senders ensures Kept(Merge(slots, x, c).slots, y, OwnRun(arrivals + [a], y)) {
      if y != x { OthersKept(slots, senders, y, OwnRun(arrivals, y), x, c); }
    }
  }

  lemma {:induction false} OthersAppend(slots: seq<Pending>, arrivals: seq<Arrival>, a: Arrival)
    requires |slots| == PENDING_SLOTS
    ensures Others(slots, arrivals + [a]) == Merge(Others(slots, arrivals), a.sender, a.chunk).slots
    decreases |arrivals|
  {
    hide Merge;
    if arrivals == [] {
      assert [a][1..] == [] && [] + [a] == [a];
    } else {
      assert (arrivals + [a])[0] == arrivals[0] && (arrivals + [a])[1..] == arrivals[1..] + [a];
      OthersAppend(Merge(slots, arrivals[0].sender, arrivals[0].chunk).slots, arrivals[1..], a);
    }
  }

  lemma {:induction false} ArrivalsKept(senders: set<u32>, arrivals: seq<Arrival>)
    requires |senders| <= PENDING_SLOTS && forall k :: 0 <= k < |arrivals| ==> arrivals[k].sender in senders
    ensures AllKept(Others(EmptySlots(), arrivals), senders, arrivals)
    decreases |arrivals|
  {
    if arrivals == [] {
    } else {
      var n := |arrivals| - 1;
      assert arrivals == arrivals[..n] + [arrivals[n]];
      ArrivalsKept(senders, arrivals[..n]);
      OthersAppend(EmptySlots(), arrivals[..n], arrivals[n]);
      hide AllKept, Others, Merge;
      ArrivalKept(Others(EmptySlots(), arrivals[..n]), senders, arrivals[..n], arrivals[n]);
    }
  }

  /** After any arrivals of at most four senders, a chunk hands over exactly the list its sender's run completes. */
  lemma HandedExactly(senders: set<u32>, arrivals: seq<Arrival>, a: Arrival)
    requires |senders| <= PENDING_SLOTS && a.sender in senders
    requires forall k :: 0 <= k < |arrivals| ==> arrivals[k].sender in senders
    ensures Merge(Others(EmptySlots(), arrivals), a.sender, a.chunk).handed
            == Complete(OwnRun(arrivals + [a], a.sender))
  {
    ArrivalsKept(senders, arrivals);
    hide AllKept, Others, Merge, Complete, OwnRun;
    ArrivalKept(Others(EmptySlots(), arrivals), senders, arrivals, a);
  }

  /** With four other senders collecting, a fifth takes the first slot, and what that held is never completed. */
  lemma FifthSenderDisplaces(slots: seq<Pending>, x: u32, c: Chunk, d: Chunk)
    requires |slots| == 4 && !c.continuation && d.continuation
    requires forall i :: 0 <= i < 4 ==> slots[i].valid && slots[i].sender != x
    requires forall i, j :: 0 <= i < j < 4 ==> slots[i].sender != slots[j].sender
    ensures Merge(Merge(slots, x, c).slots, slots[0].sender, d).handed == None
  {
    assert !Owns(slots, x) && Full(slots);
    assert SlotOf(slots, x) == 0;
    var after := Merge(slots, x, c).slots;
    assert after[0].sender == x && forall i :: 1 <= i < 4 ==> after[i] == slots[i];
    assert FirstOf(after, slots[0].sender, 0).None?;
    hide Collect, SlotOf, FirstOf;
  }
}
