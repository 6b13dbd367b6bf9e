/**
 A run from boot in which the originator table is full of bans: the packets of one more originator leave no entry,
 are charged to nobody, and all pass.
 */
module CrowdedTable {
  import opened Machine
  import opened Bucket
  import opened Limiter
  import opened LimiterRuns
  import opened BucketRuns
  import opened Budgets
  import opened EvictionReset

  const STRANGER: u32 := 17

  /** Tripped by its fourth report. */
  function BannedEntry(id: u32): Originator {
    FreshOriginator(id, 0).(other := BucketState(0, 4, true, 2))
  }

  /** Nodes 1 to `n`, all limited. */
  function Bans(n: nat): seq<Originator>
    requires n <= 16
  {
    seq(n, i requires 0 <= i < n => BannedEntry(i + 1))
  }

  /** Four reports of each of the nodes 1 to `n`. */
  function LoudReports(n: nat): seq<u32>
    requires n <= 16
  {
    if n == 0 then [] else LoudReports(n - 1) + ([n] + [n] + [n] + [n])
  }

  lemma BanNames(n: nat)
    requires n <= 16
    ensures forall id :: id in OriginatorIds(Bans(n)) ==> id <= n
  {
    assert forall i :: 0 <= i < n ==> OriginatorIds(Bans(n))[i] == i + 1;
  }

  lemma FourthTrips(table: seq<Originator>, id: u32)
    requires id !in OriginatorIds(table)
    ensures OriginatorPass(table + [Entry(id, 3)], Report(id), Near()).table == table + [BannedEntry(id)]
  {
    LastIsFound(table, Entry(id, 3));
  }

  lemma StillStranger(table: seq<Originator>, e: Originator, x: u32)
    requires x !in OriginatorIds(table) && x != e.id
    ensures x !in OriginatorIds(table + [e])
  {
    assert OriginatorIds(table + [e]) == OriginatorIds(table) + [e.id];
  }

  /** Four reports of one node join the table as a ban. */
  lemma LoudJoins(table: seq<Originator>, id: u32, x: u32)
    requires |table| < MAX_ORIGINATORS && id !in OriginatorIds(table) && x !in OriginatorIds(table) && x != id
    ensures Table(table, [id] + [id] + [id] + [id]) == table + [BannedEntry(id)]
    ensures Tallied(table, [id] + [id] + [id] + [id], x, 0, 0, 0)
  {
    var t1, t2, t3 := table + [Entry(id, 1)], table + [Entry(id, 2)], table + [Entry(id, 3)];
    assert Entry(id, 1).id == Entry(id, 2).id == Entry(id, 3).id == BannedEntry(id).id == id;
    hide *;
    EntryJoins(table, id);
    EntryCounts(table, id, 1);
    EntryCounts(table, id, 2);
    FourthTrips(table, id);
    StillStranger(table, Entry(id, 1), x);
    StillStranger(table, Entry(id, 2), x);
    StillStranger(table, Entry(id, 3), x);
    StillStranger(table, BannedEntry(id), x);
    OtherReport(table, id, x);
    OtherReport(t1, id, x);
    OtherReport(t2, id, x);
    OtherReport(t3, id, x);
    TalliedAppend(table, [id], [id], x, 0, 0, 0, 0, 0, 0);
    TalliedAppend(table, [id] + [id], [id], x, 0, 0, 0, 0, 0, 0);
    TalliedAppend(table, [id] + [id] + [id], [id], x, 0, 0, 0, 0, 0, 0);
  }

  lemma BansGrow(n: nat, x: u32)
    requires n < 16 < x
    ensures Table(Bans(n), [n + 1] + [n + 1] + [n + 1] + [n + 1]) == Bans(n + 1)
    ensures Tallied(Bans(n), [n + 1] + [n + 1] + [n + 1] + [n + 1], x, 0, 0, 0)
  {
    hide OriginatorPass, Tallied, Table, BannedEntry;
    assert Bans(n + 1) == Bans(n) + [BannedEntry(n + 1)];
    BanNames(n);
    LoudJoins(Bans(n), n + 1, x);
  }

  lemma NothingYet(x: u32)
    ensures Table([], []) == Bans(0) && Tallied([], [], x, 0, 0, 0)
  {
    hide OriginatorPass, Counts;
    assert Bans(0) == [];
  }

  lemma {:induction false} BansFill(n: nat, x: u32)
    requires n <= 16 < x
    ensures Table([], LoudReports(n)) == Bans(n) && Tallied([], LoudReports(n), x, 0, 0, 0)
  {
    hide OriginatorPass, Bans, Tallied, Table;
    if n == 0 {
      NothingYet(x);
    } else {
      BansFill(n - 1, x);
      BansGrow(n - 1, x);
      TalliedAppend([], LoudReports(n - 1), [n] + [n] + [n] + [n], x, 0, 0, 0, 0, 0, 0);
    }
  }

  /** A report of one more originator finds no room, is charged to nobody, and passes. */
  lemma StrangerPasses(x: u32)
    requires x > 16
    ensures Table(Bans(16), [x]) == Bans(16) && Tallied(Bans(16), [x], x, 1, 0, 1)
  {
    hide OriginatorPass, Tallied, Table;
    var table := Bans(16);
    BanNames(16);
    BansAreInOrder();
    OriginatorRoomIsSlot(table, Report(x), Near());
    assert Report(x).from == x && Report(x).now == 0;
    hide Bans;
    NoSlotNoEntry(table, Report(x), Near());
    OneReport(table, x, x, 1, 0, 1);
  }

  lemma BansAreInOrder()
    ensures OriginatorsOk(Bans(16)) && BansOnly(Bans(16), 0)
  {
    forall i | 0 <= i < 16 ensures OriginatorOk(Bans(16)[i]) && Bans(16)[i].LimitedAt(0) {
      BannedIsOk(i + 1);
    }
    assert forall i :: 0 <= i < 16 ==> OriginatorIds(Bans(16))[i] == i + 1;
    hide BannedEntry, OriginatorOk, Originator.LimitedAt;
  }

  lemma BannedIsOk(id: u32)
    ensures OriginatorOk(BannedEntry(id)) && BannedEntry(id).LimitedAt(0)
  {
  }

  lemma {:induction false} AllPass(n: nat, x: u32)
    requires x > 16
    ensures Table(Bans(16), Repeat(x, n)) == Bans(16) && Tallied(Bans(16), Repeat(x, n), x, n, 0, n)
  {
    if n == 0 {
      assert Repeat(x, 0) == [];
    } else {
      assert Repeat(x, n) == Repeat(x, n - 1) + [x];
      hide Tallied, Table, Bans;
      AllPass(n - 1, x);
      StrangerPasses(x);
      TalliedAppend(Bans(16), Repeat(x, n - 1), [x], x, n - 1, 0, n - 1, 1, 0, 1);
    }
  }

  lemma CrowdedTally(loud: nat, x: u32, n: nat)
    requires loud == 16 && x > 16
    ensures Tallied([], LoudReports(loud) + Repeat(x, n), x, n, 0, n)
  {
    hide *;
    BansFill(loud, x);
    AllPass(n, x);
    TalliedAppend([], LoudReports(loud), Repeat(x, n), x, 0, 0, 0, n, 0, n);
  }

  lemma CrowdedRun(loud: nat, x: u32, n: nat)
    requires loud == 16 && x == STRANGER
    ensures RunTallied(Initial(100), LoudReports(loud) + Repeat(x, n), x, n, 0, n)
  {
    BootIsCold();
    assert x == 17;
    hide *;
    CrowdedTally(loud, x, n);
    LoudNames(loud);
    NoOwnNames(LoudReports(loud), x, n);
    RunIsTallied(Initial(100), LoudReports(loud) + Repeat(x, n), x, n, 0, n);
  }

  lemma NoOwnNames(ids: seq<u32>, x: u32, n: nat)
    requires 16 < x < 100 && forall i :: 0 <= i < |ids| ==> 0 < ids[i] <= 16
    ensures var all := ids + Repeat(x, n); forall i :: 0 <= i < |all| ==> all[i] !in {0, 100}
  {
  }

  lemma {:induction false} LoudNames(n: nat)
    requires n <= 16
    ensures forall i :: 0 <= i < |LoudReports(n)| ==> 0 < LoudReports(n)[i] <= 16
  {
    if n > 0 { LoudNames(n - 1); }
  }

  /**
   From boot: after sixteen originators have sent four packets each and are limited, any number of packets of a
   seventeenth pass at one instant, and none of them is recorded.
   */
  lemma CrowdedTableLetsPass(n: nat)
    ensures var f := OfOriginator(STRANGER, Other);
            var ops := Reports(LoudReports(16) + Repeat(STRANGER, n));
            && Passing(f, Initial(100), ops) == n
            && Creations(f, Initial(100), ops) == 0 && Unrecorded(f, Initial(100), ops) == n
  {
    hide Passing, Creations, Unrecorded, Reports, LoudReports, Initial, STRANGER, Repeat, OfOriginator;
    CrowdedRun(16, STRANGER, n);
  }
}
