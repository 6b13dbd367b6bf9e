/**
 Neighbour lists travel as numbered chunks over a channel that loses, repeats and reorders them.
 The receiver collects them per sender and acts only on a complete list.
 */
module TopologyChunks {
  import opened Machine

  const PER_PACKET: nat := 28
  const MAX_NEIGHBORS: nat := 40
  const PENDING_SLOTS: nat := 4

  datatype Chunk = Chunk(version: u8, index: nat, more: bool, continuation: bool, ids: seq<u32>)

  /** `build_topology_chunk`: the part of a list that one packet carries. */
  function BuildChunk(list: seq<u32>, version: u8, index: nat): Option<Chunk> {
    if list == [] then
      if index != 0 then None else Some(Chunk(version, 0, false, false, []))
    else
      var start := index * PER_PACKET;
      if start >= |list| then None
      else
        var count := Min(|list| - start, PER_PACKET);
        Some(Chunk(version, index, start + count < |list|, index != 0, list[start..start + count]))
  }

  // ---- The header byte on the wire ----

  /** Flags in the low three bits, the chunk index above them; bit 0 tells whether the sender routes. */
  function FlagByte(c: Chunk, active: bool): nat {
    (if active then 1 else 0) + (if c.more then 2 else 0) + (if c.continuation then 4 else 0) + 8 * c.index
  }

  /** Continuation, more and index as the receiver reads them; an index without continuation is malformed. */
  function ReadFlags(b: u8): Option<(nat, bool, bool)> {
    if b / 8 != 0 && b / 4 % 2 == 0 then None else Some((b / 8, b / 2 % 2 == 1, b / 4 % 2 == 1))
  }

  /** Every chunk of a list the node can hold is read back as it was built. */
  lemma FlagsRoundTrip(list: seq<u32>, version: u8, index: nat, active: bool)
    requires |list| <= MAX_NEIGHBORS && BuildChunk(list, version, index).Some?
    ensures var c := BuildChunk(list, version, index).value;
            FlagByte(c, active) < 0x100 && ReadFlags(FlagByte(c, active)) == Some((c.index, c.more, c.continuation))
  {
  }

  // ---- The receiver ----

  datatype Pending = Pending(sender: u32, version: u8, ids: seq<u32>, valid: bool, next: nat)

  const EMPTY := Pending(0, 0, [], false, 1)

  /** The first slot that satisfies a test, scanning from `from`. */
  function FirstOf(slots: seq<Pending>, sender: u32, from: nat): (r: Option<nat>)
    requires from <= |slots|
    ensures r.Some? ==> from <= r.value < |slots| && slots[r.value].valid && slots[r.value].sender == sender
    ensures r.None? ==> forall i :: from <= i < |slots| ==> !(slots[i].valid && slots[i].sender == sender)
    ensures r.Some? ==> forall i :: from <= i < r.value ==> !(slots[i].valid && slots[i].sender == sender)
    decreases |slots| - from
  {
    if from == |slots| then None
    else if slots[from].valid && slots[from].sender == sender then Some(from)
    else FirstOf(slots, sender, from + 1)
  }

  function FirstFree(slots: seq<Pending>, from: nat): (r: Option<nat>)
    requires from <= |slots|
    ensures r.Some? ==> from <= r.value < |slots| && !slots[r.value].valid
    ensures r.None? ==> forall i :: from <= i < |slots| ==> slots[i].valid
    ensures r.Some? ==> forall i :: from <= i < r.value ==> slots[i].valid
    decreases |slots| - from
  {
    if from == |slots| then None
    else if !slots[from].valid then Some(from)
    else FirstFree(slots, from + 1)
  }

  ghost predicate Owns(slots: seq<Pending>, sender: u32) {
    exists i :: 0 <= i < |slots| && slots[i].valid && slots[i].sender == sender
  }

  ghost predicate Full(slots: seq<Pending>) { forall i :: 0 <= i < |slots| ==> slots[i].valid }

  /** The sender's first own slot, else the first free one; a full table gives up its first slot. */
  function SlotOf(slots: seq<Pending>, sender: u32): (r: nat)
    requires |slots| == PENDING_SLOTS
    ensures r < |slots|
    ensures Owns(slots, sender) ==>
              && slots[r].valid && slots[r].sender == sender
              && forall i :: 0 <= i < r ==> !(slots[i].valid && slots[i].sender == sender)
    ensures !Owns(slots, sender) && !Full(slots) ==>
              !slots[r].valid && forall i :: 0 <= i < r ==> slots[i].valid
    ensures !Owns(slots, sender) && Full(slots) ==> r == 0
  {
    var own := FirstOf(slots, sender, 0);
    var free := FirstFree(slots, 0);
    if own.Some? then own.value else if free.Some? then free.value else 0
  }

  /** Adding ids up to the capacity; overflow spoils the slot. */
  function Collect(p: Pending, ids: seq<u32>): Pending {
    if |p.ids| + |ids| <= MAX_NEIGHBORS then p.(ids := p.ids + ids)
    else p.(ids := p.ids + ids[..Max(MAX_NEIGHBORS - |p.ids|, 0)], valid := false)
  }

  function IsBootReset(c: Chunk): bool {
    c.ids == [] && c.version == 0 && !c.more && !c.continuation && c.index == 0
  }

  datatype Merged = Merged(slots: seq<Pending>, handed: Option<seq<u32>>)

  /** The collecting part of `merge_topology`; `handed` is the list given to `retain_listed_edges`. */
  function Merge(slots: seq<Pending>, sender: u32, c: Chunk): (m: Merged)
    requires |slots| == PENDING_SLOTS
    ensures |m.slots| == PENDING_SLOTS
  {
    var own := FirstOf(slots, sender, 0);
    if c.continuation && own.None? then Merged(slots, None)
    else
      var i := if c.continuation then own.value else SlotOf(slots, sender);
      var p := if c.continuation then slots[i] else Pending(sender, c.version, [], c.index == 0, 1);
      if p.valid && p.sender == sender && p.version == c.version && (!c.continuation || c.index == p.next) then
        var q := Collect(p.(next := if c.continuation then p.next + 1 else p.next), c.ids);
        if c.more then Merged(slots[i := q], None)
        else Merged(slots[i := q.(valid := false)], if q.valid && !IsBootReset(c) then Some(q.ids) else None)
      else Merged(slots[i := if c.continuation then p.(valid := false) else p], None)
  }

  // ---- Safety over every delivery ----

  /** What the senders published: the lists each of them sent under each version, one or several. */
  type Published = map<(u32, u8), set<seq<u32>>>

  ghost predicate Holdable(published: Published) {
    forall k, list :: k in published && list in published[k] ==> |list| <= MAX_NEIGHBORS
  }

  /** A packet off the air: some chunk of some published list. The gate in front may refuse it. */
  datatype Delivery = Delivery(sender: u32, version: u8, list: seq<u32>, index: nat, accepted: bool) {
    function Key(): (u32, u8) { (sender, version) }
  }

  ghost predicate Sent(published: Published, d: Delivery) {
    d.Key() in published && d.list in published[d.Key()] && BuildChunk(d.list, d.version, d.index).Some?
  }

  ghost function Receive(slots: seq<Pending>, d: Delivery): (m: Merged)
    requires |slots| == PENDING_SLOTS && BuildChunk(d.list, d.version, d.index).Some?
    ensures |m.slots| == PENDING_SLOTS
  {
    if d.accepted then Merge(slots, d.sender, BuildChunk(d.list, d.version, d.index).value) else Merged(slots, None)
  }

  ghost predicate AllSent(published: Published, deliveries: seq<Delivery>) {
    forall i :: 0 <= i < |deliveries| ==> Sent(published, deliveries[i])
  }

  function EmptySlots(): seq<Pending> { Repeat(EMPTY, PENDING_SLOTS) }

  ghost function After(published: Published, deliveries: seq<Delivery>): (slots: seq<Pending>)
    requires AllSent(published, deliveries)
    ensures |slots| == PENDING_SLOTS
  {
    if deliveries == [] then EmptySlots()
    else Receive(After(published, deliveries[..|deliveries| - 1]), deliveries[|deliveries| - 1]).slots
  }

  /** The front of one list with the rest of another. */
  function Mix(a: seq<u32>, b: seq<u32>): seq<u32>
    requires |a| > PER_PACKET && |b| > PER_PACKET
  {
    a[..PER_PACKET] + b[PER_PACKET..]
  }

  /** Changing the front of a published list for that of another gives a published list again. */
  ghost predicate ClosedUnderMixing(lists: set<seq<u32>>) {
    forall a, b :: a in lists && b in lists && |a| > PER_PACKET && |b| > PER_PACKET ==> Mix(a, b) in lists
  }

  /** Whatever is delivered, a list handed over for this sender and version is one that was published. */
  ghost predicate HandsOnlyPublished(published: Published, key: (u32, u8)) {
    forall deliveries: seq<Delivery>, d: Delivery ::
      AllSent(published, deliveries) && Sent(published, d) && d.Key() == key ==>
        var handed := Receive(After(published, deliveries), d).handed;
        handed.Some? ==> handed.value in published[key]
  }

  /** A live slot holds the first chunk of some longer list its sender published. */
  ghost predicate Partial(published: Published, p: Pending) {
    p.valid ==>
      && p.next == 1 && (p.sender, p.version) in published
      && exists a :: a in published[(p.sender, p.version)] && |a| > PER_PACKET && p.ids == a[..PER_PACKET]
  }

  ghost predicate AllPartial(published: Published, slots: seq<Pending>) {
    forall i :: 0 <= i < |slots| ==> Partial(published, slots[i])
  }

  lemma ChunkExtends(list: seq<u32>, version: u8, index: nat)
    requires BuildChunk(list, version, index).Some?
    ensures var c := BuildChunk(list, version, index).value;
            && c.version == version && c.index == index && (c.continuation <==> index != 0)
            && (list != [] ==> index * PER_PACKET < |list|)
            && (list != [] ==> list[..index * PER_PACKET] + c.ids == list[..index * PER_PACKET + |c.ids|])
            && (c.more ==> index * PER_PACKET + |c.ids| == (index + 1) * PER_PACKET < |list|)
            && (!c.more ==> index * PER_PACKET + |c.ids| == |list|)
  {
  }

  /** A list a node can hold travels whole, or as a front and a rest. */
  lemma ChunkIs(list: seq<u32>, version: u8, index: nat)
    requires |list| <= MAX_NEIGHBORS && BuildChunk(list, version, index).Some?
    ensures BuildChunk(list, version, index).value ==
            if |list| <= PER_PACKET then Chunk(version, 0, false, false, list)
            else if index == 0 then Chunk(version, 0, true, false, list[..PER_PACKET])
            else Chunk(version, 1, false, true, list[PER_PACKET..])
    ensures index == 0 || (index == 1 && |list| > PER_PACKET)
  {
  }

  /** One delivery: what is handed over is the delivered list, or its rest behind the front of another. */
  lemma ReceiveHands(published: Published, slots: seq<Pending>, d: Delivery)
    requires Holdable(published) && |slots| == PENDING_SLOTS && AllPartial(published, slots) && Sent(published, d)
    ensures AllPartial(published, Receive(slots, d).slots)
    ensures var handed := Receive(slots, d).handed;
            handed.Some? ==>
              || handed.value == d.list
              || exists a :: a in published[d.Key()] && |a| > PER_PACKET && |d.list| > PER_PACKET
                             && handed.value == Mix(a, d.list)
  {
    ChunkIs(d.list, d.version, d.index);
    assert [] + d.list == d.list && (|d.list| > PER_PACKET ==> [] + d.list[..PER_PACKET] == d.list[..PER_PACKET]);
  }

  lemma {:induction false} AfterPartial(published: Published, deliveries: seq<Delivery>)
    requires Holdable(published) && AllSent(published, deliveries)
    ensures AllPartial(published, After(published, deliveries))
  {
    if deliveries == [] {
    } else {
      var n := |deliveries| - 1;
      AfterPartial(published, deliveries[..n]);
      ReceiveHands(published, After(published, deliveries[..n]), deliveries[n]);
    }
  }

  /** The front of one list, then the rest of another: the receiver hands over the mixture. */
  lemma MixIsHanded(published: Published, sender: u32, version: u8, a: seq<u32>, b: seq<u32>)
    requires Holdable(published) && (sender, version) in published
    requires a in published[(sender, version)] && b in published[(sender, version)]
    requires |a| > PER_PACKET && |b| > PER_PACKET
    ensures var front, rest := Delivery(sender, version, a, 0, true), Delivery(sender, version, b, 1, true);
            && AllSent(published, [front]) && Sent(published, rest)
            && Receive(After(published, [front]), rest).handed == Some(Mix(a, b))
  {
    var front, rest := Delivery(sender, version, a, 0, true), Delivery(sender, version, b, 1, true);
    ChunkIs(a, version, 0);
    ChunkIs(b, version, 1);
    var slots := EmptySlots();
    var q := Pending(sender, version, a[..PER_PACKET], true, 1);
    assert [front][..0] == [] && [] + a[..PER_PACKET] == a[..PER_PACKET];
    assert After(published, [front]) == Receive(slots, front).slots == slots[SlotOf(slots, sender) := q];
    FirstChunkOwns(slots, sender, q);
  }

  /**
   Lists are handed over as they were published, under every loss, repetition, reordering, interleaving of
   senders and refusal by the version gate, exactly when the lists published under that sender and version
   are closed under exchanging their fronts.
   */
  lemma HandedListsArePublishedExactly(published: Published, key: (u32, u8))
    requires Holdable(published) && key in published
    ensures HandsOnlyPublished(published, key) <==> ClosedUnderMixing(published[key])
  {
    var lists := published[key];
    if ClosedUnderMixing(lists) {
      forall deliveries: seq<Delivery>, d: Delivery
        | AllSent(published, deliveries) && Sent(published, d) && d.Key() == key
        ensures var handed := Receive(After(published, deliveries), d).handed;
                handed.Some? ==> handed.value in lists
      {
        AfterPartial(published, deliveries);
        ReceiveHands(published, After(published, deliveries), d);
      }
    }
    if HandsOnlyPublished(published, key) {
      forall a, b | a in lists && b in lists && |a| > PER_PACKET && |b| > PER_PACKET ensures Mix(a, b) in lists {
        MixIsHanded(published, key.0, key.1, a, b);
      }
    }
  }

  /** One list per sender and version is enough: the list the receiver acts on is the one that was published. */
  lemma HandedListsAreComplete(published: Published, deliveries: seq<Delivery>, d: Delivery)
    requires Holdable(published) && AllSent(published, deliveries) && Sent(published, d)
    requires published[d.Key()] == {d.list}
    ensures var handed := Receive(After(published, deliveries), d).handed;
            handed.Some? ==> handed.value == d.list
  {
    assert |d.list| > PER_PACKET ==> Mix(d.list, d.list) == d.list;
    HandedListsArePublishedExactly(published, d.Key());
  }

  /** So is that no list is longer than one packet. */
  lemma ShortListsAreNeverMixed(published: Published, deliveries: seq<Delivery>, d: Delivery)
    requires Holdable(published) && AllSent(published, deliveries) && Sent(published, d)
    requires forall list :: list in published[d.Key()] ==> |list| <= PER_PACKET
    ensures var handed := Receive(After(published, deliveries), d).handed;
            handed.Some? ==> handed.value == d.list
  {
    AfterPartial(published, deliveries);
    ReceiveHands(published, After(published, deliveries), d);
  }

  function Ids(first: u32, n: nat): seq<u32>
    requires first + n < U32_SPAN
  {
    seq(n, i requires 0 <= i < n => first + i)
  }

  /** A neighbour leaves and another comes under one version: the receiver acts on a list of both. */
  lemma ChangedListIsMixed(sender: u32, version: u8)
    ensures var before, after := Ids(1, 29), Ids(2, 29);
            var published: Published := map[(sender, version) := {before, after}];
            && Distinct(before) && Distinct(after)
            && !HandsOnlyPublished(published, (sender, version))
            && 1 in Mix(before, after) && 30 in Mix(before, after)
  {
    var before, after := Ids(1, 29), Ids(2, 29);
    var published: Published := map[(sender, version) := {before, after}];
    var mixed := Mix(before, after);
    assert mixed[0] == 1 && mixed[28] == 30;
    assert before[28] == 29 && after[0] == 2;
    assert !ClosedUnderMixing(published[(sender, version)]);
    HandedListsArePublishedExactly(published, (sender, version));
  }

  // ---- Delivery in order ----

  /** The receiver after the chunks `0`, ..., `index` of a list, one after the other. */
  ghost function InOrder(slots: seq<Pending>, sender: u32, list: seq<u32>, version: u8, index: nat): (m: Merged)
    requires |slots| == PENDING_SLOTS && BuildChunk(list, version, index).Some?
    ensures |m.slots| == PENDING_SLOTS
  {
    var before := if index == 0 then slots else InOrder(slots, sender, list, version, index - 1).slots;
    Merge(before, sender, BuildChunk(list, version, index).value)
  }

  /**
   The other direction: whatever the slots held, a list whose chunks arrive in order is handed over
   with its last chunk and not before. (The empty list of version 0 is a restart, and is not.)
   */
  lemma {:induction false} InOrderDeliveryCompletes(
    slots: seq<Pending>, sender: u32, list: seq<u32>, version: u8, index: nat)
    requires |slots| == PENDING_SLOTS && |list| <= MAX_NEIGHBORS && BuildChunk(list, version, index).Some?
    ensures var m := InOrder(slots, sender, list, version, index);
            var last := !BuildChunk(list, version, index).value.more;
            && m.handed == (if last && !(list == [] && version == 0) then Some(list) else None)
            && (!last ==>
                  && FirstOf(m.slots, sender, 0).Some?
                  && m.slots[FirstOf(m.slots, sender, 0).value]
                     == Pending(sender, version, list[..(index + 1) * PER_PACKET], true, index + 1))
  {
    ChunkExtends(list, version, index);
    var c := BuildChunk(list, version, index).value;
    assert list[..|list|] == list;
    if index == 0 {
      assert list[..0] + c.ids == c.ids && [] + c.ids == c.ids;
      FirstChunkOwns(slots, sender, Collect(Pending(sender, version, [], true, 1), c.ids));
    } else {
      InOrderDeliveryCompletes(slots, sender, list, version, index - 1);
      var before := InOrder(slots, sender, list, version, index - 1).slots;
      var i := FirstOf(before, sender, 0).value;
      UpdateOwns(before, sender, i, Collect(before[i].(next := index + 1), c.ids));
    }
  }

  lemma FirstChunkOwns(slots: seq<Pending>, sender: u32, q: Pending)
    requires |slots| == PENDING_SLOTS && q.valid && q.sender == sender
    ensures FirstOf(slots[SlotOf(slots, sender) := q], sender, 0) == Some(SlotOf(slots, sender))
  {
    var i := SlotOf(slots, sender);
    var after := slots[i := q];
    assert after[i].valid && after[i].sender == sender;
    assert forall j :: 0 <= j < i ==> after[j] == slots[j];
  }

  lemma UpdateOwns(slots: seq<Pending>, sender: u32, i: nat, q: Pending)
    requires |slots| == PENDING_SLOTS && q.valid && q.sender == sender
    requires FirstOf(slots, sender, 0) == Some(i)
    ensures FirstOf(slots[i := q], sender, 0) == Some(i)
  {
    var after := slots[i := q];
    var r := FirstOf(after, sender, 0);
    assert after[i].valid && after[i].sender == sender;
  }

  // ---- Delivery among others ----

  datatype Arrival = Arrival(sender: u32, chunk: Chunk)

  /** The receiver after chunks of whatever content. */
  function Others(slots: seq<Pending>, arrivals: seq<Arrival>): (r: seq<Pending>)
    requires |slots| == PENDING_SLOTS
    ensures |r| == PENDING_SLOTS
    decreases |arrivals|
  {
    if arrivals == [] then slots else Others(Merge(slots, arrivals[0].sender, arrivals[0].chunk).slots, arrivals[1..])
  }

  /** The live slots belong to different senders, all of them in the set. */
  ghost predicate Orderly(slots: seq<Pending>, senders: set<u32>) {
    && (forall i :: 0 <= i < |slots| && slots[i].valid ==> slots[i].sender in senders)
    && (forall i, j :: 0 <= i < j < |slots| && slots[i].valid && slots[j].valid ==> slots[i].sender != slots[j].sender)
  }

  /** Four senders never fill the table against one another. */
  lemma RoomForFour(slots: seq<Pending>, senders: set<u32>, sender: u32)
    requires |slots| == PENDING_SLOTS && Orderly(slots, senders) && |senders| <= PENDING_SLOTS && sender in senders
    ensures Owns(slots, sender) || !Full(slots)
  {
    if Full(slots) && !Owns(slots, sender) {
      var ids := seq(|slots|, i requires 0 <= i < |slots| => slots[i].sender);
      DistinctCardinality(ids);
      assert Values(ids) <= senders - {sender};
      SubsetSize(Values(ids), senders - {sender});
    }
  }

  /** A chunk of any of four senders keeps the table orderly, and the slots of the others as they are. */
  lemma MergeKeepsOrder(slots: seq<Pending>, senders: set<u32>, sender: u32, c: Chunk)
    requires |slots| == PENDING_SLOTS && Orderly(slots, senders) && |senders| <= PENDING_SLOTS && sender in senders
    ensures var after := Merge(slots, sender, c).slots;
            && Orderly(after, senders)
            && forall i :: 0 <= i < PENDING_SLOTS && slots[i].valid && slots[i].sender != sender ==>
                 after[i] == slots[i]
  {
    RoomForFour(slots, senders, sender);
  }

  lemma {:induction false} OthersKeepOrder(slots: seq<Pending>, senders: set<u32>, arrivals: seq<Arrival>)
    requires |slots| == PENDING_SLOTS && Orderly(slots, senders) && |senders| <= PENDING_SLOTS
    requires forall k :: 0 <= k < |arrivals| ==> arrivals[k].sender in senders
    ensures var after := Others(slots, arrivals);
            && Orderly(after, senders)
            && forall i :: 0 <= i < PENDING_SLOTS && slots[i].valid
                           && (forall k :: 0 <= k < |arrivals| ==> arrivals[k].sender != slots[i].sender)
                           ==> after[i] == slots[i]
    decreases |arrivals|
  {
    if arrivals == [] {
    } else {
      var a := arrivals[0];
      var next := Merge(slots, a.sender, a.chunk).slots;
      MergeKeepsOrder(slots, senders, a.sender, a.chunk);
      hide Merge, Orderly;
      OthersKeepOrder(next, senders, arrivals[1..]);
      forall i | 0 <= i < PENDING_SLOTS && slots[i].valid
                 && (forall k :: 0 <= k < |arrivals| ==> arrivals[k].sender != slots[i].sender)
        ensures Others(slots, arrivals)[i] == slots[i]
      {
        assert a.sender != slots[i].sender;
        assert forall k :: 0 <= k < |arrivals[1..]| ==> arrivals[1..][k] == arrivals[k + 1];
      }
    }
  }

  /**
   Once a receiver has heard any chunks of at most four senders, well formed or not, a list in two chunks of one of
   them is handed over although any chunks of the others arrive between the two.
   */
  lemma {:induction false} InterleavedDeliveryCompletes(
    earlier: seq<Arrival>, senders: set<u32>, sender: u32, list: seq<u32>, version: u8, between: seq<Arrival>)
    requires |senders| <= PENDING_SLOTS && sender in senders
    requires forall k :: 0 <= k < |earlier| ==> earlier[k].sender in senders
    requires PER_PACKET < |list| <= MAX_NEIGHBORS
    requires forall k :: 0 <= k < |between| ==> between[k].sender in senders - {sender}
    ensures var first := Merge(Others(EmptySlots(), earlier), sender, BuildChunk(list, version, 0).value);
            var second := Merge(Others(first.slots, between), sender, BuildChunk(list, version, 1).value);
            first.handed == None && second.handed == Some(list)
  {
    OthersKeepOrder(EmptySlots(), senders, earlier);
    InterleavedFromOrderly(Others(EmptySlots(), earlier), senders, sender, list, version, between);
  }

  lemma {:induction false} InterleavedFromOrderly(
    slots: seq<Pending>, senders: set<u32>, sender: u32, list: seq<u32>, version: u8, between: seq<Arrival>)
    requires |slots| == PENDING_SLOTS && Orderly(slots, senders) && |senders| <= PENDING_SLOTS && sender in senders
    requires PER_PACKET < |list| <= MAX_NEIGHBORS
    requires forall k :: 0 <= k < |between| ==> between[k].sender in senders - {sender}
    ensures var first := Merge(slots, sender, BuildChunk(list, version, 0).value);
            var second := Merge(Others(first.slots, between), sender, BuildChunk(list, version, 1).value);
            first.handed == None && second.handed == Some(list)
  {
    ChunkIs(list, version, 0);
    ChunkIs(list, version, 1);
    var front := list[..PER_PACKET];
    var q := Pending(sender, version, front, true, 1);
    assert [] + front == front && front + list[PER_PACKET..] == list;
    RoomForFour(slots, senders, sender);
    var i := SlotOf(slots, sender);
    var mine := slots[i := q];
    assert Merge(slots, sender, BuildChunk(list, version, 0).value).slots == mine;
    OthersKeepOrder(mine, senders, between);
    var after := Others(mine, between);
    assert after[i] == q;
    assert FirstOf(after, sender, 0) == Some(i);
  }

  // ---- The receiver object ----

  lemma CollectNothing(p: Pending, ids: seq<u32>)
    requires |p.ids| <= MAX_NEIGHBORS
    ensures Collect(p, ids[..0]) == p
  {
    assert p.ids + ids[..0] == p.ids;
  }

  lemma CollectOne(p: Pending, ids: seq<u32>, k: nat)
    requires |p.ids| <= MAX_NEIGHBORS && k < |ids|
    ensures var q := Collect(p, ids[..k]);
            Collect(p, ids[..k + 1]) == if |q.ids| < MAX_NEIGHBORS then q.(ids := q.ids + [ids[k]])
                                        else q.(valid := false)
  {
    assert ids[..k + 1] == ids[..k] + [ids[k]];
    var room := MAX_NEIGHBORS - |p.ids|;
    if room <= k {
      assert ids[..k][..room] == ids[..room] && ids[..k + 1][..room] == ids[..room];
    }
    if room == k {
      assert ids[..k][..room] == ids[..k];
    }
  }

  class Receiver {
    const slots: array<Pending>

    ghost predicate Valid()
      reads this, slots
    {
      slots.Length == PENDING_SLOTS
    }

    constructor ()
      ensures Valid() && fresh(slots) && slots[..] == EmptySlots()
    {
      slots := new Pending[PENDING_SLOTS](_ => EMPTY);
    }

    /** The loop that adds a chunk's ids, one by one, to a slot. */
    method CollectInto(i: nat, ids: seq<u32>)
      requires Valid() && i < PENDING_SLOTS && |slots[i].ids| <= MAX_NEIGHBORS
      modifies slots
      ensures slots[..] == old(slots[..])[i := Collect(old(slots[i]), ids)]
    {
      ghost var was := slots[i];
      CollectNothing(was, ids);
      for k := 0 to |ids|
        invariant slots[..] == old(slots[..])[i := Collect(was, ids[..k])]
      {
        CollectOne(was, ids, k);
        if |slots[i].ids| < MAX_NEIGHBORS {
          slots[i] := slots[i].(ids := slots[i].ids + [ids[k]]);
        } else {
          slots[i] := slots[i].(valid := false);
        }
      }
      assert ids[..|ids|] == ids;
    }

    method MergeChunk(sender: u32, c: Chunk) returns (handed: Option<seq<u32>>)
      requires Valid() && forall i :: 0 <= i < PENDING_SLOTS ==> |slots[i].ids| <= MAX_NEIGHBORS
      modifies slots
      ensures Merged(slots[..], handed) == Merge(old(slots[..]), sender, c)
      ensures forall i :: 0 <= i < PENDING_SLOTS ==> |slots[i].ids| <= MAX_NEIGHBORS
    {
      ghost var was := slots[..];
      var own := FirstOf(slots[..], sender, 0);
      if c.continuation && own.None? {
        return None;
      }
      var i := if c.continuation then own.value else SlotOf(slots[..], sender);
      if !c.continuation {
        slots[i] := Pending(sender, c.version, [], c.index == 0, 1);
      }
      var p := slots[i];
      if p.valid && p.sender == sender && p.version == c.version && (!c.continuation || c.index == p.next) {
        if c.continuation {
          slots[i] := p.(next := p.next + 1);
        }
        CollectInto(i, c.ids);
        handed := None;
        if !c.more {
          if slots[i].valid && !IsBootReset(c) {
            handed := Some(slots[i].ids);
          }
          slots[i] := slots[i].(valid := false);
        }
      } else {
        if c.continuation {
          slots[i] := p.(valid := false);
        }
        handed := None;
      }
    }
  }
}
