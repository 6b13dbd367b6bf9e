/**
 A run from boot that meets an originator's account with equality: an unlimited entry is evicted and comes back with
 a full budget, so with one stranger's help any number of packets passes.
 */
module EvictionReset {
  import opened Machine
  import opened Bucket
  import opened Limiter
  import opened LimiterRuns
  import opened BucketRuns
  import opened DropDecision
  import opened Budgets

  /** A position report to everybody, at boot. */
  function Report(from: u32): Packet {
    Packet(from, NODENUM_BROADCAST, Some(3), 0, false, None, 100, 0.0, true, true)
  }

  /** The graph knows nodes 1 to 15 only. */
  function Near(): u32 -> Proximity { (id: u32) => Proximity(1 <= id <= 15, 0) }

  function Reports(ids: seq<u32>): seq<TimedOp> {
    if ids == [] then [] else [At(0, Receive(Report(ids[0]), Near()))] + Reports(ids[1..])
  }

  // ---- Only the originator table matters ----

  /** Before the end of the warm-up, counted from boot at 0. */
  ghost predicate Cold(s: Limiter) {
    s.enabled && s.node == 100 && !s.admission.warmed && (s.admission.bootKnown ==> s.admission.boot == 0)
  }

  lemma ReportStep(s: Limiter, id: u32)
    requires Cold(s) && id !in {0, 100}
    ensures var d := ShouldDrop(s, Report(id), Near()); var c := OriginatorPass(s.originators, Report(id), Near());
            Cold(d.state) && d.state.originators == c.table && d.drop == c.refused
  {
    var p := Report(id);
    var booted := s.(lastEvent := None, admission := NoteBoot(s.admission, 0));
    NotingStaysCold(booted.admission, id);
    hide OriginatorPass, NoteOriginator;
  }

  lemma NotingStaysCold(a: Admission, id: u32)
    requires !a.warmed && a.bootKnown && a.boot == 0
    ensures var n := NoteOriginator(a, id, 0); !n.warmed && n.bootKnown && n.boot == 0
  {
  }

  /** The table after reports. */
  function Table(table: seq<Originator>, ids: seq<u32>): seq<Originator>
    decreases |ids|
  {
    if ids == [] then table else Table(OriginatorPass(table, Report(ids[0]), Near()).table, ids[1..])
  }

  /** What is counted of the report of `id` for the sender `x`. */
  datatype Count = Passes | Joins | Strays

  predicate Counts(what: Count, table: seq<Originator>, id: u32, x: u32) {
    var c := OriginatorPass(table, Report(id), Near());
    var there := x in OriginatorIds(c.table);
    match what
    case Passes => id == x && !c.refused
    case Joins => x !in OriginatorIds(table) && there
    case Strays => id == x && !c.refused && !there
  }

  function Total(what: Count, table: seq<Originator>, ids: seq<u32>, x: u32): nat
    decreases |ids|
  {
    if ids == [] then 0
    else
      (if Counts(what, table, ids[0], x) then 1 else 0)
      + Total(what, OriginatorPass(table, Report(ids[0]), Near()).table, ids[1..], x)
  }

  ghost function RunTotal(what: Count, s: Limiter, ids: seq<u32>, x: u32): nat {
    var f, ops := OfOriginator(x, Other), Reports(ids);
    match what
    case Passes => Passing(f, s, ops)
    case Joins => Creations(f, s, ops)
    case Strays => Unrecorded(f, s, ops)
  }

  /** What one report does to the sender's entry, and whether it lets a packet of that sender pass. */
  lemma ReportCounts(s: Limiter, id: u32, x: u32)
    requires Cold(s) && id !in {0, 100}
    ensures var f, op := OfOriginator(x, Other), At(0, Receive(Report(id), Near())); var next := Apply(s, op.op);
            && f.passes(s, op) == (if Counts(Passes, s.originators, id, x) then 1 else 0)
            && (Counts(Joins, s.originators, id, x) <==> !f.present(s) && f.present(next))
            && (Counts(Strays, s.originators, id, x) <==> Counts(Passes, s.originators, id, x) && !f.present(next))
  {
    var p := Report(id);
    assert PortKindOf(p.port) == Other && p.from == id && !Exempt(s, p);
    ReportStep(s, id);
    hide ShouldDrop, OriginatorPass, Cold, Exempt, OriginatorIds, Report, PortKindOf;
  }

  lemma RunStep(what: Count, s: Limiter, ids: seq<u32>, x: u32)
    requires Cold(s) && ids != [] && ids[0] !in {0, 100}
    ensures var next := ShouldDrop(s, Report(ids[0]), Near()).state;
            && Cold(next) && next.originators == OriginatorPass(s.originators, Report(ids[0]), Near()).table
            && RunTotal(what, s, ids, x)
               == (if Counts(what, s.originators, ids[0], x) then 1 else 0) + RunTotal(what, next, ids[1..], x)
  {
    var ops, p := Reports(ids), Report(ids[0]);
    assert ops[0] == At(0, Receive(p, Near())) && ops[1..] == Reports(ids[1..]);
    ReportStep(s, ids[0]);
    ReportCounts(s, ids[0], x);
    hide ShouldDrop, OriginatorPass, Cold, Report, Reports, OfOriginator, Counts, Near;
    match what
    case Passes => assert Passing(OfOriginator(x, Other), s, ops) == RunTotal(what, s, ids, x);
    case Joins =>
    case Strays =>
  }

  lemma {:induction false} RunIsTotal(what: Count, s: Limiter, ids: seq<u32>, x: u32)
    requires Cold(s) && forall i :: 0 <= i < |ids| ==> ids[i] !in {0, 100}
    ensures RunTotal(what, s, ids, x) == Total(what, s.originators, ids, x)
    decreases |ids|
  {
    if ids == [] {
    } else {
      hide ShouldDrop, OriginatorPass, Cold, RunTotal, Counts;
      RunStep(what, s, ids, x);
      RunIsTotal(what, ShouldDrop(s, Report(ids[0]), Near()).state, ids[1..], x);
    }
  }

  lemma {:induction false} TotalAppend(what: Count, table: seq<Originator>, a: seq<u32>, b: seq<u32>, x: u32)
    ensures Total(what, table, a + b, x) == Total(what, table, a, x) + Total(what, Table(table, a), b, x)
    ensures Table(table, a + b) == Table(Table(table, a), b)
    decreases |a|
  {
    hide OriginatorPass, Counts;
    if a == [] {
      assert a + b == b;
    } else {
      assert (a + b)[0] == a[0] && (a + b)[1..] == a[1..] + b;
      TotalAppend(what, OriginatorPass(table, Report(a[0]), Near()).table, a[1..], b, x);
    }
  }

  /** What passed of one sender over reports, how often it got an entry, and what passed without leaving one. */
  ghost predicate Tallied(
    table: seq<Originator>, ids: seq<u32>, x: u32, passed: nat, created: nat, unrecorded: nat)
  {
    && Total(Passes, table, ids, x) == passed && Total(Joins, table, ids, x) == created
    && Total(Strays, table, ids, x) == unrecorded
  }

  ghost predicate RunTallied(s: Limiter, ids: seq<u32>, x: u32, passed: nat, created: nat, unrecorded: nat) {
    && RunTotal(Passes, s, ids, x) == passed && RunTotal(Joins, s, ids, x) == created
    && RunTotal(Strays, s, ids, x) == unrecorded
  }

  lemma RunIsTallied(s: Limiter, ids: seq<u32>, x: u32, p: nat, c: nat, u: nat)
    requires Cold(s) && (forall i :: 0 <= i < |ids| ==> ids[i] !in {0, 100}) && Tallied(s.originators, ids, x, p, c, u)
    ensures RunTallied(s, ids, x, p, c, u)
  {
    hide Cold, Total, RunTotal;
    RunIsTotal(Passes, s, ids, x);
    RunIsTotal(Joins, s, ids, x);
    RunIsTotal(Strays, s, ids, x);
  }

  lemma TalliedAppend(
    table: seq<Originator>, a: seq<u32>, b: seq<u32>, x: u32, p: nat, c: nat, u: nat, p': nat, c': nat, u': nat)
    requires Tallied(table, a, x, p, c, u) && Tallied(Table(table, a), b, x, p', c', u')
    ensures Tallied(table, a + b, x, p + p', c + c', u + u') && Table(table, a + b) == Table(Table(table, a), b)
  {
    TotalAppend(Passes, table, a, b, x);
    TotalAppend(Joins, table, a, b, x);
    TotalAppend(Strays, table, a, b, x);
    hide Total, Table;
  }

  /** The tally of one report. */
  ghost predicate TalliedOne(table: seq<Originator>, id: u32, x: u32, passed: nat, created: nat, unrecorded: nat) {
    && passed == (if Counts(Passes, table, id, x) then 1 else 0)
    && created == (if Counts(Joins, table, id, x) then 1 else 0)
    && unrecorded == (if Counts(Strays, table, id, x) then 1 else 0)
  }

  lemma OneReport(table: seq<Originator>, id: u32, x: u32, p: nat, c: nat, u: nat)
    requires TalliedOne(table, id, x, p, c, u)
    ensures Table(table, [id]) == OriginatorPass(table, Report(id), Near()).table && Tallied(table, [id], x, p, c, u)
  {
    hide OriginatorPass, Counts;
    assert [id][1..] == [];
    assert forall what :: Total(what, table, [id], x) == if Counts(what, table, id, x) then 1 else 0;
  }

  /** A report of somebody else, after which that sender has no entry that it had not before. */
  lemma OtherReport(table: seq<Originator>, id: u32, x: u32)
    requires id != x
    requires x in OriginatorIds(table) || x !in OriginatorIds(OriginatorPass(table, Report(id), Near()).table)
    ensures Table(table, [id]) == OriginatorPass(table, Report(id), Near()).table && Tallied(table, [id], x, 0, 0, 0)
  {
    hide OriginatorPass, OriginatorIds;
    OneReport(table, id, x, 0, 0, 0);
  }

  // ---- Entries at the end of the table ----

  function Entry(id: u32, count: u32): Originator {
    FreshOriginator(id, 0).(other := BucketState(0, count, false, 2))
  }

  lemma EntryJoins(table: seq<Originator>, id: u32)
    requires |table| < MAX_ORIGINATORS && id !in OriginatorIds(table)
    ensures var c := OriginatorPass(table, Report(id), Near()); c.table == table + [Entry(id, 1)] && !c.refused
  {
  }

  lemma EntryCounts(table: seq<Originator>, id: u32, count: u32)
    requires id !in OriginatorIds(table) && count < 3
    ensures var c := OriginatorPass(table + [Entry(id, count)], Report(id), Near());
            c.table == table + [Entry(id, count + 1)] && !c.refused
  {
    LastIsFound(table, Entry(id, count));
  }

  lemma LastIsFound(table: seq<Originator>, e: Originator)
    requires e.id !in OriginatorIds(table)
    ensures Find(OriginatorIds(table + [e]), e.id) == Some(|table|)
  {
    var ids := OriginatorIds(table + [e]);
    assert ids == OriginatorIds(table) + [e.id];
  }

  // ---- The table with fifteen near nodes ----

  function Neighbours(n: nat): seq<Originator>
    requires n <= 15
  {
    seq(n, i requires 0 <= i < n => Entry(i + 1, 1))
  }

  /** Reports of nodes 1 to `n`. */
  function FirstReports(n: nat): seq<u32>
    requires n <= 15
  {
    if n == 0 then [] else FirstReports(n - 1) + [n]
  }

  lemma {:induction false} NeighboursFill(n: nat, x: u32)
    requires n <= 15 && x > 15
    ensures Table([], FirstReports(n)) == Neighbours(n) && Tallied([], FirstReports(n), x, 0, 0, 0)
  {
    if n == 0 {
      assert Neighbours(0) == [];
    } else {
      NeighboursFill(n - 1, x);
      NeighbourJoins(n - 1, x);
      hide OriginatorPass, Tallied, Table, Neighbours;
      TalliedAppend([], FirstReports(n - 1), [n], x, 0, 0, 0, 0, 0, 0);
    }
  }

  lemma NeighbourJoins(n: nat, x: u32)
    requires n < 15 && x > 15
    ensures Table(Neighbours(n), [n + 1]) == Neighbours(n + 1) && Tallied(Neighbours(n), [n + 1], x, 0, 0, 0)
  {
    NeighbourNames(n);
    NeighbourNames(n + 1);
    assert Neighbours(n + 1) == Neighbours(n) + [Entry(n + 1, 1)];
    hide OriginatorPass, Tallied, Table;
    EntryJoins(Neighbours(n), n + 1);
    OtherReport(Neighbours(n), n + 1, x);
  }

  lemma NeighbourNames(n: nat)
    requires n <= 15
    ensures forall id :: id in OriginatorIds(Neighbours(n)) ==> id <= n
  {
    assert forall i :: 0 <= i < n ==> OriginatorIds(Neighbours(n))[i] == i + 1;
  }

  /** The near nodes and one more, or none. */
  ghost predicate Crowd(table: seq<Originator>) {
    || table == Neighbours(15)
    || exists y: u32, c: u32 :: y > 15 && table == Neighbours(15) + [Entry(y, c)]
  }

  /** A distant node that has no entry takes the one place that is not a neighbour's, with a new budget. */
  lemma StrangerTakesPlace(table: seq<Originator>, id: u32)
    requires Crowd(table) && id > 15 && id !in OriginatorIds(table)
    ensures var c := OriginatorPass(table, Report(id), Near());
            c.table == Neighbours(15) + [Entry(id, 1)] && !c.refused
  {
    if |table| == 16 { LastIsEvicted(table); }
    var ids := OriginatorIds(table);
    assert OriginatorSlot(table, id, 0, Near()) == Some(15);
    var entry := FreshOriginator(id, 0);
    var placed := Place(table, 15, entry);
    assert placed == Neighbours(15) + [entry];
    assert |table| == 16 ==> ids[15] == table[15].id;
    assert AdmitOriginator(table, 15, id, 0) == placed;
    var b := Fresh(0).Charge(TripOf(Other), ClearOf(Other), 1, 0);
    assert b.bucket == BucketState(0, 1, false, 2) && !b.refused;
    assert placed[15 := entry.(other := b.bucket)] == Neighbours(15) + [Entry(id, 1)];
    hide Neighbours, AdmitOriginator, OriginatorSlot, Place, BucketState.Charge;
  }

  lemma LastIsEvicted(table: seq<Originator>)
    requires Crowd(table) && |table| == 16
    ensures EvictionCandidate(OriginatorRanks(table, 0, Near())) == Some(15)
  {
    var ranks := OriginatorRanks(table, 0, Near());
    forall i | 0 <= i < 16 ensures !ranks[i].limited && (ranks[i].outside <==> i == 15) {
      RankInCrowd(table, i);
    }
    hide OriginatorRanks, Crowd, Neighbours;
    assert IsEvictionChoice(ranks, EvictionCandidate(ranks));
    assert Above(ranks[15], ranks[0]);
  }

  lemma RankInCrowd(table: seq<Originator>, i: nat)
    requires Crowd(table) && |table| == 16 && i < 16
    ensures var r := OriginatorRanks(table, 0, Near())[i]; !r.limited && (r.outside <==> i == 15)
  {
    var e := table[i];
    NobodyLimited(table, e.id);
    NameInCrowd(table, i);
    hide OriginatorLimitedAt, Crowd, WrappingSub;
    assert Near()(e.id).inGraph <==> i < 15;
    assert OriginatorRanks(table, 0, Near())[i]
           == RankOf(OriginatorLimitedAt(table, e.id, 0), Near()(e.id), WrappingSub(0, e.lastSeen));
  }

  lemma NameInCrowd(table: seq<Originator>, i: nat)
    requires Crowd(table) && |table| == 16 && i < 16
    ensures if i < 15 then table[i].id == i + 1 else table[i].id > 15
  {
    if i < 15 { assert table[i] == Entry(i + 1, 1); }
  }

  lemma NobodyLimited(table: seq<Originator>, id: u32)
    requires Crowd(table)
    ensures !OriginatorLimitedAt(table, id, 0)
  {
    forall i | 0 <= i < |table| ensures !table[i].LimitedAt(0) {
      assert i < 15 ==> table[i] == Entry(i + 1, 1);
    }
  }

  // ---- Rounds ----

  const SENDER: u32 := 50
  const HELPER: u32 := 60

  function Round(): seq<u32> { [SENDER, SENDER, SENDER, HELPER] }

  function Rounds(r: nat): seq<u32> { if r == 0 then [] else Rounds(r - 1) + Round() }

  /** Who sits in the sixteenth place before a round. */
  ghost predicate Ready(table: seq<Originator>) {
    table == Neighbours(15) || table == Neighbours(15) + [Entry(HELPER, 1)]
  }

  lemma Absent(y: u32, c: u32, id: u32)
    requires id > 15 && y > 15 && y != id
    ensures var crowd := Neighbours(15) + [Entry(y, c)];
            Crowd(crowd) && Crowd(Neighbours(15))
            && id !in OriginatorIds(crowd) && id !in OriginatorIds(Neighbours(15))
  {
    var ids := OriginatorIds(Neighbours(15) + [Entry(y, c)]);
    assert forall i :: 0 <= i < 15 ==> ids[i] == i + 1;
    assert forall i :: 0 <= i < 15 ==> OriginatorIds(Neighbours(15))[i] == i + 1;
  }

  lemma LastIsThere(table: seq<Originator>, e: Originator)
    ensures e.id in OriginatorIds(table + [e])
  {
    assert OriginatorIds(table + [e])[|table|] == e.id;
  }

  /** A sender's report that passes and leaves its entry at the end of the table. */
  lemma OwnReport(table: seq<Originator>, base: seq<Originator>, x: u32, count: u32)
    requires var c := OriginatorPass(table, Report(x), Near()); c.table == base + [Entry(x, count)] && !c.refused
    ensures Table(table, [x]) == base + [Entry(x, count)]
    ensures Tallied(table, [x], x, 1, if x in OriginatorIds(table) then 0 else 1, 0)
  {
    hide OriginatorPass, OriginatorIds, Tallied, Table;
    LastIsThere(base, Entry(x, count));
    OneReport(table, x, x, 1, if x in OriginatorIds(table) then 0 else 1, 0);
  }

  /** Three reports of one sender and one of another, by the tables they leave. */
  lemma FourReports(t0: seq<Originator>, base: seq<Originator>, x: u32, helper: u32, after: seq<Originator>)
    requires x != helper && x !in OriginatorIds(t0) && x !in OriginatorIds(after)
    requires var c := OriginatorPass(t0, Report(x), Near()); c.table == base + [Entry(x, 1)] && !c.refused
    requires var c := OriginatorPass(base + [Entry(x, 1)], Report(x), Near());
             c.table == base + [Entry(x, 2)] && !c.refused
    requires var c := OriginatorPass(base + [Entry(x, 2)], Report(x), Near());
             c.table == base + [Entry(x, 3)] && !c.refused
    requires OriginatorPass(base + [Entry(x, 3)], Report(helper), Near()).table == after
    ensures Table(t0, [x] + [x] + [x] + [helper]) == after && Tallied(t0, [x] + [x] + [x] + [helper], x, 3, 1, 0)
  {
    var t1, t2, t3 := base + [Entry(x, 1)], base + [Entry(x, 2)], base + [Entry(x, 3)];
    hide *;
    LastIsThere(base, Entry(x, 1));
    LastIsThere(base, Entry(x, 2));
    EntryName(x, 1);
    EntryName(x, 2);
    OwnReport(t0, base, x, 1);
    OwnReport(t1, base, x, 2);
    OwnReport(t2, base, x, 3);
    OtherReport(t3, helper, x);
    TalliedAppend(t0, [x], [x], x, 1, 1, 0, 1, 0, 0);
    TalliedAppend(t0, [x] + [x], [x], x, 2, 1, 0, 1, 0, 0);
    TalliedAppend(t0, [x] + [x] + [x], [helper], x, 3, 1, 0, 0, 0, 0);
  }

  lemma EntryName(id: u32, count: u32)
    ensures Entry(id, count).id == id
  {
  }

  lemma RoundFrom(table: seq<Originator>, x: u32, helper: u32)
    requires x > 15 && helper > 15 && x != helper
    requires table == Neighbours(15) || table == Neighbours(15) + [Entry(helper, 1)]
    ensures var round := [x] + [x] + [x] + [helper];
            Table(table, round) == Neighbours(15) + [Entry(helper, 1)] && Tallied(table, round, x, 3, 1, 0)
  {
    var base := Neighbours(15);
    hide *;
    Absent(helper, 1, x);
    Absent(x, 3, helper);
    StrangerTakesPlace(table, x);
    EntryCounts(base, x, 1);
    EntryCounts(base, x, 2);
    StrangerTakesPlace(base + [Entry(x, 3)], helper);
    FourReports(table, base, x, helper, base + [Entry(helper, 1)]);
  }

  lemma RoundPasses(table: seq<Originator>)
    requires Ready(table)
    ensures Tallied(table, Round(), SENDER, 3, 1, 0) && Ready(Table(table, Round()))
  {
    hide Tallied, Table, Neighbours, Entry;
    assert SENDER > 15 && HELPER > 15 && SENDER != HELPER;
    assert Round() == [SENDER] + [SENDER] + [SENDER] + [HELPER];
    hide SENDER, HELPER, Round;
    RoundFrom(table, SENDER, HELPER);
  }

  lemma NothingPasses(table: seq<Originator>)
    ensures Tallied(table, [], SENDER, 0, 0, 0) && Table(table, []) == table
  {
    hide OriginatorPass, Counts, SENDER;
  }

  lemma {:induction false} RoundsPass(r: nat)
    ensures Tallied(Neighbours(15), Rounds(r), SENDER, 3 * r, r, 0)
    ensures Ready(Table(Neighbours(15), Rounds(r)))
  {
    hide Tallied, Table, Neighbours, Round, SENDER;
    if r == 0 {
      NothingPasses(Neighbours(15));
    } else {
      RoundsPass(r - 1);
      hide Ready;
      RoundPasses(Table(Neighbours(15), Rounds(r - 1)));
      TalliedAppend(Neighbours(15), Rounds(r - 1), Round(), SENDER, 3 * (r - 1), r - 1, 0, 3, 1, 0);
    }
  }

  /**
   From boot, for every number of rounds: three packets of one originator pass per round, all at one instant, under
   a trip threshold of four. Each round a stranger's report evicts the sender's unlimited entry, and the sender gets
   a new one: the account is met with equality.
   */
  lemma EvictionResetsBudget(r: nat)
    ensures TripOf(Other) == 4
    ensures var f := OfOriginator(SENDER, Other); var ops := Reports(FirstReports(15) + Rounds(r));
            && Passing(f, Initial(100), ops) == 3 * r
            && Creations(f, Initial(100), ops) == r && Unrecorded(f, Initial(100), ops) == 0
  {
    BootIsCold();
    assert RunTallied(Initial(100), FirstReports(15) + Rounds(r), SENDER, 3 * r, r, 0) by {
      hide *;
      NeighboursFill(15, SENDER);
      RoundsPass(r);
      TalliedAppend([], FirstReports(15), Rounds(r), SENDER, 0, 0, 0, 3 * r, r, 0);
      FirstNames(15);
      RoundNames(r);
      NamesInRange(FirstReports(15), Rounds(r));
      RunIsTallied(Initial(100), FirstReports(15) + Rounds(r), SENDER, 3 * r, r, 0);
    }
    hide Passing, Creations, Unrecorded, Reports, FirstReports, Rounds, Initial, TripOf;
  }

  lemma BootIsCold()
    ensures Cold(Initial(100)) && Initial(100).originators == [] && TripOf(Other) == 4 && SENDER > 15
  {
  }

  lemma NamesInRange(a: seq<u32>, b: seq<u32>)
    requires (forall i :: 0 <= i < |a| ==> 0 < a[i] <= 15) && forall i :: 0 <= i < |b| ==> b[i] in {SENDER, HELPER}
    ensures forall i :: 0 <= i < |a + b| ==> (a + b)[i] !in {0, 100}
  {
  }

  lemma {:induction false} FirstNames(n: nat)
    requires n <= 15
    ensures forall i :: 0 <= i < |FirstReports(n)| ==> 0 < FirstReports(n)[i] <= 15
  {
    if n > 0 { FirstNames(n - 1); }
  }

  lemma {:induction false} RoundNames(r: nat)
    ensures forall i :: 0 <= i < |Rounds(r)| ==> Rounds(r)[i] in {SENDER, HELPER}
  {
    if r > 0 { RoundNames(r - 1); }
  }
}
