/** The ring of recently seen packets, against the unbounded log of everything it ever stored. */
module PacketHistory {
  import opened Machine

  const SIZE: nat := 64

  datatype Entry = Entry(from: u32, id: u32, maxHop: u8)

  datatype Observed = New | Duplicate | Upgraded

  /** Entries of originator 0 are never found. */
  predicate Matches(e: Entry, from: u32, id: u32) {
    e.from == from && e.id == id && e.from != 0
  }

  function FindEntry(entries: seq<Entry>, from: u32, id: u32): (r: Option<nat>)
    ensures r.None? <==> forall i :: 0 <= i < |entries| ==> !Matches(entries[i], from, id)
    ensures r.Some? ==> r.value < |entries| && Matches(entries[r.value], from, id)
    ensures r.Some? ==> forall i :: 0 <= i < r.value ==> !Matches(entries[i], from, id)
  {
    if entries == [] then None
    else if Matches(entries[0], from, id) then Some(0)
    else
      var rest := FindEntry(entries[1..], from, id);
      if rest.None? then None else Some(rest.value + 1)
  }

  datatype Ring = Ring(entries: seq<Entry>, head: nat) {
    predicate Ok() { |entries| == SIZE && head < SIZE }

    function Store(from: u32, id: u32, hop: u8): Ring
      requires Ok()
    {
      var found := FindEntry(entries, from, id);
      if found.Some? then
        var e := entries[found.value];
        if hop > e.maxHop then this.(entries := entries[found.value := e.(maxHop := hop)]) else this
      else Ring(entries[head := Entry(from, id, hop)], (head + 1) % SIZE)
    }

    function Result(from: u32, id: u32, hop: u8): Observed
      requires Ok()
    {
      if id == 0 then New
      else
        var found := FindEntry(entries, from, id);
        if found.None? then New else if hop > entries[found.value].maxHop then Upgraded else Duplicate
    }

    function Observe(from: u32, id: u32, hop: u8): Ring
      requires Ok()
    {
      if id == 0 || Result(from, id, hop) == Duplicate then this else Store(from, id, hop)
    }
  }

  function EmptyRing(): Ring { Ring(seq(SIZE, _ => Entry(0, 0, 0)), 0) }

  // ---- The unbounded log ----

  /** One stay in the ring: the entry, and the hop limits seen while it stayed, with the upgrades told. */
  datatype Stay = Stay(entry: Entry, seen: seq<u8>, upgrades: nat)

  /** The latest stay of a packet among the last 64 stores. */
  function Live(log: seq<Stay>, from: u32, id: u32, n: nat): (r: Option<nat>)
    requires n <= |log|
    ensures r.Some? ==> r.value < n && r.value + SIZE >= |log| && Matches(log[r.value].entry, from, id)
    ensures r.None? <==> forall i :: 0 <= i < n && i + SIZE >= |log| ==> !Matches(log[i].entry, from, id)
  {
    if n == 0 || n - 1 + SIZE < |log| then None
    else if Matches(log[n - 1].entry, from, id) then Some(n - 1)
    else Live(log, from, id, n - 1)
  }

  datatype Call = Observe(from: u32, id: u32, hop: u8) | Remember(from: u32, id: u32) {
    function Hop(): u8 { if Observe? then hop else 0 }

    /** Observing a packet without an id records nothing. */
    predicate Records() { Remember? || id != 0 }
  }

  function LogResult(log: seq<Stay>, c: Call): Observed {
    var live := Live(log, c.from, c.id, |log|);
    if !c.Records() || live.None? then New
    else if c.Hop() > log[live.value].entry.maxHop then Upgraded else Duplicate
  }

  /** The specification: a map from packets to hop limits that forgets after 64 later stores. */
  function LogStep(log: seq<Stay>, c: Call): seq<Stay> {
    if !c.Records() then log
    else
      var live := Live(log, c.from, c.id, |log|);
      if live.None? then log + [Stay(Entry(c.from, c.id, c.Hop()), [c.Hop()], 0)]
      else
        var s := log[live.value];
        log[live.value :=
          Stay(s.entry.(maxHop := Max(s.entry.maxHop, c.Hop())), s.seen + [c.Hop()],
               if LogResult(log, c) == Upgraded then s.upgrades + 1 else s.upgrades)]
  }

  function RingStep(r: Ring, c: Call): Ring
    requires r.Ok()
  {
    if c.Observe? then r.Observe(c.from, c.id, c.hop) else r.Store(c.from, c.id, 0)
  }

  /** The ring holds the last 64 stores of the log, and no packet twice. */
  ghost predicate Refines(r: Ring, log: seq<Stay>) {
    && r.Ok() && r.head == |log| % SIZE
    && (forall k: nat :: |log| <= k + SIZE && k < |log| ==> r.entries[k % SIZE] == log[k].entry)
    && (forall k: nat :: |log| <= k < SIZE ==> r.entries[k] == Entry(0, 0, 0))
    && Unique(log)
  }

  lemma EmptyRefines()
    ensures Refines(EmptyRing(), [])
  {
  }

  /** Which store a slot shows. */
  ghost function StoreAt(n: nat, i: nat): int
    requires i < SIZE
  {
    var last := n % SIZE;
    if i < last then n - last + i else n - last + i - SIZE
  }

  lemma StoreAtSlot(n: nat, i: nat)
    requires i < SIZE
    ensures StoreAt(n, i) < n <= StoreAt(n, i) + SIZE
    ensures StoreAt(n, i) >= 0 ==> StoreAt(n, i) % SIZE == i
    ensures StoreAt(n, i) < 0 ==> n <= i
  {
  }

  /** A packet has at most one stay among the last 64 stores. */
  lemma SameStay(r: Ring, log: seq<Stay>, j: nat, k: nat, from: u32, id: u32)
    requires Refines(r, log) && j < |log| && k < |log| && |log| <= j + SIZE && |log| <= k + SIZE
    requires Matches(log[j].entry, from, id) && Matches(log[k].entry, from, id)
    ensures j == k
  {
  }

  lemma LookupRefines(r: Ring, log: seq<Stay>, from: u32, id: u32)
    requires Refines(r, log)
    ensures var found := FindEntry(r.entries, from, id); var live := Live(log, from, id, |log|);
            && (found.Some? <==> live.Some?)
            && (found.Some? ==> found.value == live.value % SIZE && r.entries[found.value] == log[live.value].entry)
  {
    var found, live := FindEntry(r.entries, from, id), Live(log, from, id, |log|);
    if live.Some? {
      assert r.entries[live.value % SIZE] == log[live.value].entry;
    }
    if found.Some? {
      StoreAtSlot(|log|, found.value);
      var k := StoreAt(|log|, found.value);
      if k >= 0 {
        assert r.entries[k % SIZE] == log[k].entry;
        assert live.Some?;
        SameStay(r, log, k, live.value, from, id);
      }
    }
  }

  lemma StepRefines(r: Ring, log: seq<Stay>, c: Call)
    requires Refines(r, log)
    ensures Refines(RingStep(r, c), LogStep(log, c))
    ensures c.Observe? ==> r.Result(c.from, c.id, c.hop) == LogResult(log, c)
  {
    assert r.Ok();
    hide Refines, Live, FindEntry;
    LookupRefines(r, log, c.from, c.id);
    if c.Records() {
      if Live(log, c.from, c.id, |log|).None? {
        AppendRefines(r, log, c);
      } else {
        RaiseRefines(r, log, c);
        FoundStep(r, c);
      }
    }
  }

  /** A packet that is found has its hop limit raised, if it is not already as high. */
  lemma FoundStep(r: Ring, c: Call)
    requires r.Ok() && c.Records() && FindEntry(r.entries, c.from, c.id).Some?
    ensures var i := FindEntry(r.entries, c.from, c.id).value; var e := r.entries[i];
            RingStep(r, c) == r.(entries := r.entries[i := e.(maxHop := Max(e.maxHop, c.Hop()))])
  {
    var i := FindEntry(r.entries, c.from, c.id).value;
    assert r.entries[i := r.entries[i]] == r.entries;
    hide FindEntry;
  }

  lemma AppendRefines(r: Ring, log: seq<Stay>, c: Call)
    requires Refines(r, log) && c.Records() && Live(log, c.from, c.id, |log|).None?
    ensures Refines(Ring(r.entries[r.head := Entry(c.from, c.id, c.Hop())], (r.head + 1) % SIZE), LogStep(log, c))
  {
    var log' := LogStep(log, c);
    assert log' == log + [Stay(Entry(c.from, c.id, c.Hop()), [c.Hop()], 0)];
    AppendUnique(r, log, c);
    AppendSlots(r, log, c);
  }

  lemma AppendSlots(r: Ring, log: seq<Stay>, c: Call)
    requires Refines(r, log)
    ensures var e := Entry(c.from, c.id, c.Hop());
            var log' := log + [Stay(e, [c.Hop()], 0)];
            var entries' := r.entries[r.head := e];
            && (r.head + 1) % SIZE == |log'| % SIZE
            && (forall k: nat :: |log'| <= k + SIZE && k < |log'| ==> entries'[k % SIZE] == log'[k].entry)
            && (forall k: nat :: |log'| <= k < SIZE ==> entries'[k] == Entry(0, 0, 0))
  {
    var log' := log + [Stay(Entry(c.from, c.id, c.Hop()), [c.Hop()], 0)];
    var entries' := r.entries[r.head := Entry(c.from, c.id, c.Hop())];
    forall k: nat | |log'| <= k + SIZE && k < |log'| ensures entries'[k % SIZE] == log'[k].entry {
      if k < |log| { RemaindersDiffer(k, |log|, SIZE); }
    }
  }

  lemma AppendUnique(r: Ring, log: seq<Stay>, c: Call)
    requires Refines(r, log) && Live(log, c.from, c.id, |log|).None?
    ensures var log' := log + [Stay(Entry(c.from, c.id, c.Hop()), [c.Hop()], 0)];
            Unique(log')
  {
    var log' := log + [Stay(Entry(c.from, c.id, c.Hop()), [c.Hop()], 0)];
    forall j: nat, k: nat | |log'| <= j + SIZE && j < k < |log'| && log'[j].entry.from != 0
      ensures !Matches(log'[k].entry, log'[j].entry.from, log'[j].entry.id)
    {
      if k == |log| {
        assert !Matches(log[j].entry, c.from, c.id);
      } else {
        assert !Matches(log[k].entry, log[j].entry.from, log[j].entry.id);
      }
    }
  }

  lemma RaiseRefines(r: Ring, log: seq<Stay>, c: Call)
    requires Refines(r, log) && c.Records() && Live(log, c.from, c.id, |log|).Some?
    ensures var k := Live(log, c.from, c.id, |log|).value; var e := log[k].entry;
            Refines(r.(entries := r.entries[k % SIZE := e.(maxHop := Max(e.maxHop, c.Hop()))]), LogStep(log, c))
  {
    var k := Live(log, c.from, c.id, |log|).value;
    var log' := LogStep(log, c);
    assert |log'| == |log| && forall j :: 0 <= j < |log| && j != k ==> log'[j] == log[j];
    assert log'[k].entry == log[k].entry.(maxHop := Max(log[k].entry.maxHop, c.Hop()));
    assert k + SIZE >= |log|;
    hide LogStep, Live, Unique, Matches;
    SameKeysUnique(log, log');
    RaiseSlots(r, log, log', k, log'[k].entry);
  }

  lemma RaiseSlots(r: Ring, log: seq<Stay>, log': seq<Stay>, k: nat, e: Entry)
    requires Refines(r, log) && k < |log| == |log'| <= k + SIZE
    requires log'[k].entry == e && forall j :: 0 <= j < |log| && j != k ==> log'[j] == log[j]
    ensures var entries' := r.entries[k % SIZE := e];
            && (forall j: nat :: |log'| <= j + SIZE && j < |log'| ==> entries'[j % SIZE] == log'[j].entry)
            && (forall j: nat :: |log'| <= j < SIZE ==> entries'[j] == Entry(0, 0, 0))
  {
    var entries' := r.entries[k % SIZE := e];
    hide Unique;
    forall j: nat | |log'| <= j + SIZE && j < |log'|
      ensures entries'[j % SIZE] == log'[j].entry
    {
      if j < k { RemaindersDiffer(j, k, SIZE); } else if k < j { RemaindersDiffer(k, j, SIZE); }
    }
  }

  ghost predicate Unique(log: seq<Stay>) {
    forall j: nat, k: nat :: |log| <= j + SIZE && j < k < |log| && log[j].entry.from != 0 ==>
      !Matches(log[k].entry, log[j].entry.from, log[j].entry.id)
  }

  lemma SameKeysUnique(log: seq<Stay>, log': seq<Stay>)
    requires Unique(log) && |log'| == |log|
    requires forall j :: 0 <= j < |log| ==>
               log'[j].entry.from == log[j].entry.from && log'[j].entry.id == log[j].entry.id
    ensures Unique(log')
  {
    forall j: nat, k: nat | |log'| <= j + SIZE && j < k < |log'| && log'[j].entry.from != 0
      ensures !Matches(log'[k].entry, log'[j].entry.from, log'[j].entry.id)
    {
      assert !Matches(log[k].entry, log[j].entry.from, log[j].entry.id);
    }
  }

  // ---- Runs ----

  function RunRing(calls: seq<Call>): (r: Ring)
    ensures r.Ok()
  {
    if calls == [] then EmptyRing() else RingStep(RunRing(calls[..|calls| - 1]), calls[|calls| - 1])
  }

  function RunLog(calls: seq<Call>): seq<Stay> {
    if calls == [] then [] else LogStep(RunLog(calls[..|calls| - 1]), calls[|calls| - 1])
  }

  lemma {:induction false} RunRefines(calls: seq<Call>)
    ensures Refines(RunRing(calls), RunLog(calls))
  {
    if calls == [] {
      EmptyRefines();
    } else {
      RunRefines(calls[..|calls| - 1]);
      StepRefines(RunRing(calls[..|calls| - 1]), RunLog(calls[..|calls| - 1]), calls[|calls| - 1]);
    }
  }

  /**
   After any run, a packet with an originator and an id is reported new exactly when it is not among
   the last 64 stores; so after it was stored, at least 64 other stores come before it is new again.
   */
  lemma NewExactlyWhenForgotten(calls: seq<Call>, from: u32, id: u32, hop: u8)
    requires from != 0 && id != 0
    ensures var log := RunLog(calls);
            RunRing(calls).Result(from, id, hop) == New <==>
              forall k: nat :: k < |log| && Matches(log[k].entry, from, id) ==> |log| - (k + 1) >= 64
  {
    RunRefines(calls);
    StepRefines(RunRing(calls), RunLog(calls), Observe(from, id, hop));
    var log := RunLog(calls);
    var live := Live(log, from, id, |log|);
    if live.None? {
      forall k: nat | k < |log| && Matches(log[k].entry, from, id) ensures |log| - (k + 1) >= 64 {
        assert !(k + SIZE >= |log|);
      }
    } else {
      assert Matches(log[live.value].entry, from, id) && |log| - (live.value + 1) < 64;
    }
  }

  ghost predicate IsMaximum(m: u8, seen: seq<u8>) {
    m in seen && forall i :: 0 <= i < |seen| ==> seen[i] <= m
  }

  /** Every stay records the maximum it has seen, and each upgrade it told raised that maximum. */
  ghost predicate StayOk(s: Stay, limit: u8) {
    && s.seen != [] && IsMaximum(s.entry.maxHop, s.seen)
    && s.seen[0] + s.upgrades <= s.entry.maxHop <= limit
  }

  ghost predicate HopsWithin(calls: seq<Call>, limit: u8) {
    forall i :: 0 <= i < |calls| ==> calls[i].Hop() <= limit
  }

  /** The recorded hop limit is the maximum of the stay, and 3-bit hop limits allow at most 7 upgrades. */
  lemma {:induction false} StaysRecordMaximum(calls: seq<Call>, limit: u8)
    requires HopsWithin(calls, limit)
    ensures forall k :: 0 <= k < |RunLog(calls)| ==>
              StayOk(RunLog(calls)[k], limit) && RunLog(calls)[k].upgrades <= limit
  {
    if calls != [] {
      var n := |calls| - 1;
      StaysRecordMaximum(calls[..n], limit);
      StepStayOk(RunLog(calls[..n]), calls[n], limit);
    }
  }

  lemma StepStayOk(log: seq<Stay>, c: Call, limit: u8)
    requires forall k :: 0 <= k < |log| ==> StayOk(log[k], limit)
    requires c.Hop() <= limit
    ensures forall k :: 0 <= k < |LogStep(log, c)| ==> StayOk(LogStep(log, c)[k], limit)
  {
  }

  // ---- The object ----

  class History {
    const entries: array<Entry>
    var head: nat

    ghost predicate Valid()
      reads this, entries
    {
      entries.Length == SIZE && head < SIZE
    }

    ghost function Model(): Ring
      reads this, entries
    {
      Ring(entries[..], head)
    }

    constructor ()
      ensures Valid() && fresh(entries) && Model() == EmptyRing()
    {
      entries := new Entry[SIZE](_ => Entry(0, 0, 0));
      head := 0;
    }

    method Find(from: u32, id: u32) returns (at: Option<nat>)
      requires Valid()
      ensures at == FindEntry(entries[..], from, id)
    {
      for i := 0 to SIZE
        invariant forall j :: 0 <= j < i ==> !Matches(entries[j], from, id)
      {
        if Matches(entries[i], from, id) {
          return Some(i);
        }
      }
      return None;
    }

    method Store(from: u32, id: u32, hop: u8)
      requires Valid()
      modifies this`head, entries
      ensures Valid() && Model() == old(Model()).Store(from, id, hop)
    {
      var at := Find(from, id);
      if at.Some? {
        if hop > entries[at.value].maxHop {
          entries[at.value] := entries[at.value].(maxHop := hop);
        }
        return;
      }
      entries[head] := Entry(from, id, hop);
      head := (head + 1) % SIZE;
    }

    method ObservePacket(from: u32, id: u32, hop: u8) returns (r: Observed)
      requires Valid()
      modifies this`head, entries
      ensures Valid() && Model() == old(Model()).Observe(from, id, hop) && r == old(Model()).Result(from, id, hop)
    {
      if id == 0 {
        return New;
      }
      var at := Find(from, id);
      if at.Some? {
        if hop > entries[at.value].maxHop {
          Store(from, id, hop);
          return Upgraded;
        }
        return Duplicate;
      }
      Store(from, id, hop);
      return New;
    }
  }
}
