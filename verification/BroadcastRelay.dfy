/**
 Coordinated broadcast relaying: every node ranks the same candidates on its own, takes the position
 its rank gives it, and must not collide with or overtake a peer that ranked the same input.
 */
module BroadcastRelay {
  import opened Machine
  import opened RelayWindow

  const MAX_CANDIDATES: nat := 44
  const COST_BUCKET: nat := 50

  /** What ranking reads of the node's graph; link prices are averaged elsewhere. */
  datatype View = View(
    transmitted: u32 -> bool,
    coverage: u32 -> seq<u32>,
    covered: set<u32>,
    meanCost: (u32, seq<u32>) -> nat,
    tier: u32 -> u8,
    router: u32 -> bool)

  datatype Candidate = Candidate(id: u32, coverageCount: nat, cost: nat, tier: u8, role: u8, coverageFor: u32)

  function Unique(targets: seq<u32>, covered: set<u32>): seq<u32> {
    if targets == [] then []
    else
      var n := |targets| - 1;
      Unique(targets[..n], covered) + (if targets[n] in covered then [] else [targets[n]])
  }

  function UniqueOf(v: View, c: u32): seq<u32> { Unique(v.coverage(c), v.covered) }

  predicate Eligible(v: View, c: u32) { !v.transmitted(c) && UniqueOf(v, c) != [] }

  /** A candidate's entry in the ranking; costs count in buckets. */
  function Describe(v: View, c: u32): Candidate
    requires Eligible(v, c)
  {
    var unique := UniqueOf(v, c);
    Candidate(c, |unique|, v.meanCost(c, unique) / COST_BUCKET * COST_BUCKET, v.tier(c),
              if v.router(c) then 1 else 0, unique[0])
  }

  /** Strict preference: role, tier, coverage, cost bucket, then node id by the packet's parity. */
  predicate Better(a: Candidate, b: Candidate, high: bool) {
    if a.role != b.role then a.role > b.role
    else if a.tier != b.tier then a.tier > b.tier
    else if a.coverageCount != b.coverageCount then a.coverageCount > b.coverageCount
    else if a.cost != b.cost then a.cost < b.cost
    else if high then a.id > b.id
    else a.id < b.id
  }

  ghost predicate Precedes(v: View, a: u32, b: u32, high: bool) {
    Eligible(v, a) && Eligible(v, b) && Better(Describe(v, a), Describe(v, b), high)
  }

  /** The best candidate of a pool: none when nobody adds coverage. */
  ghost predicate IsBest(v: View, pool: seq<u32>, high: bool, best: Option<Candidate>) {
    match best
    case None => forall c :: c in pool ==> !Eligible(v, c)
    case Some(b) =>
      && b.id in pool && Eligible(v, b.id) && b == Describe(v, b.id)
      && forall c :: c in pool && c != b.id && Eligible(v, c) ==> Precedes(v, b.id, c, high)
  }

  function Best(v: View, pool: seq<u32>, high: bool): (r: Option<Candidate>)
    ensures IsBest(v, pool, high, r)
  {
    if pool == [] then None
    else
      var n := |pool| - 1;
      var best := Best(v, pool[..n], high);
      assert forall c :: c in pool ==> c in pool[..n] || c == pool[n];
      if Eligible(v, pool[n]) && (best.None? || Better(Describe(v, pool[n]), best.value, high)) then
        Some(Describe(v, pool[n]))
      else best
  }

  function SwapErase(pool: seq<u32>, node: u32): (r: seq<u32>)
    ensures node in pool ==> |r| == |pool| - 1
  {
    var found := Find(pool, node);
    if found.None? then pool else SwapRemove(pool, found.value)
  }

  /** Picking the best and swap-erasing it, until nobody adds coverage. */
  function Pick(v: View, pool: seq<u32>, high: bool): seq<u32>
    decreases |pool|
  {
    var best := Best(v, pool, high);
    if best.None? then [] else [best.value.id] + Pick(v, SwapErase(pool, best.value.id), high)
  }

  // ---- Greedy picking is sorting ----

  ghost predicate Sorted(v: View, order: seq<u32>, high: bool) {
    && (forall i :: 0 <= i < |order| ==> Eligible(v, order[i]))
    && forall i, j :: 0 <= i < j < |order| ==> Precedes(v, order[i], order[j], high)
  }

  ghost function EligibleOf(v: View, pool: seq<u32>): set<u32> {
    set c | c in pool && Eligible(v, c)
  }

  lemma SwapEraseSet(pool: seq<u32>, node: u32)
    requires Distinct(pool) && node in pool
    ensures Distinct(SwapErase(pool, node)) && Values(SwapErase(pool, node)) == Values(pool) - {node}
  {
    SwapRemoveDistinct(pool, Find(pool, node).value);
  }

  lemma SortedCons(v: View, b: u32, order: seq<u32>, high: bool)
    requires Sorted(v, order, high) && Eligible(v, b)
    requires forall c :: c in Values(order) ==> Precedes(v, b, c, high)
    ensures Sorted(v, [b] + order, high)
    ensures Values([b] + order) == {b} + Values(order)
  {
    forall k | 0 <= k < |order| ensures Precedes(v, b, order[k], high) {
      assert order[k] in Values(order);
    }
  }

  lemma PickStep(v: View, pool: seq<u32>, b: u32)
    requires Distinct(pool) && b in pool && Eligible(v, b)
    ensures Distinct(SwapErase(pool, b))
    ensures EligibleOf(v, pool) == {b} + EligibleOf(v, SwapErase(pool, b))
    ensures forall c :: c in EligibleOf(v, SwapErase(pool, b)) ==> c in pool && c != b && Eligible(v, c)
  {
    SwapEraseSet(pool, b);
    var rest := SwapErase(pool, b);
    forall c ensures c in rest <==> c in pool && c != b {
      assert c in Values(rest) <==> c in Values(pool) - {b};
    }
  }

  /** The picks are the candidates with coverage of their own, in strict order of preference. */
  lemma {:induction false} PickSorts(v: View, pool: seq<u32>, high: bool)
    requires Distinct(pool)
    ensures Sorted(v, Pick(v, pool, high), high)
    ensures Values(Pick(v, pool, high)) == EligibleOf(v, pool)
    decreases |pool|
  {
    var best := Best(v, pool, high);
    if best.Some? {
      var b := best.value.id;
      PickStep(v, pool, b);
      PickSorts(v, SwapErase(pool, b), high);
      SortedCons(v, b, Pick(v, SwapErase(pool, b), high), high);
    }
  }

  /** A set of candidates has one order. */
  lemma {:induction false} OneOrder(v: View, a: seq<u32>, b: seq<u32>, high: bool)
    requires Sorted(v, a, high) && Sorted(v, b, high)
    requires Values(a) == Values(b)
    ensures a == b
  {
    if a == [] {
      NoValues(a);
      NoValues(b);
    } else {
      assert a[0] in Values(a);
      NoValues(a);
      NoValues(b);
      assert b[0] in Values(b);
      var k :| 0 <= k < |b| && b[k] == a[0];
      var m :| 0 <= m < |a| && a[m] == b[0];
      assert a[0] == b[0];
      assert Values(a[1..]) == Values(b[1..]) by {
        forall c ensures c in Values(a[1..]) <==> c in Values(b[1..]) {
          TailValues(v, a, high, c);
          TailValues(v, b, high, c);
        }
      }
      OneOrder(v, a[1..], b[1..], high);
      assert a == [a[0]] + a[1..] && b == [b[0]] + b[1..];
    }
  }

  lemma TailValues(v: View, a: seq<u32>, high: bool, c: u32)
    requires Sorted(v, a, high) && a != []
    ensures c in Values(a[1..]) <==> c in Values(a) && c != a[0]
  {
    if c in a && c != a[0] {
      var i :| 0 <= i < |a| && a[i] == c;
      assert a[1..][i - 1] == c;
    }
    if c in a[1..] {
      var i :| 0 <= i < |a[1..]| && a[1..][i] == c;
      assert Precedes(v, a[0], a[i + 1], high);
    }
  }

  /** The array order of the pool does not matter. */
  lemma PickIgnoresPoolOrder(v: View, p: seq<u32>, q: seq<u32>, high: bool)
    requires Distinct(p) && Distinct(q) && Values(p) == Values(q)
    ensures Pick(v, p, high) == Pick(v, q, high)
  {
    PickSorts(v, p, high);
    PickSorts(v, q, high);
    forall c ensures c in EligibleOf(v, p) <==> c in EligibleOf(v, q) {
      assert c in Values(p) <==> c in Values(q);
    }
    assert EligibleOf(v, p) == EligibleOf(v, q);
    OneOrder(v, Pick(v, p, high), Pick(v, q, high), high);
  }

  /** The early and late pools. */
  ghost predicate Splits(v: View, pool: seq<u32>, early: seq<u32>, late: seq<u32>) {
    && Distinct(early) && Distinct(late)
    && (forall c :: c in early <==> c in pool && v.router(c))
    && (forall c :: c in late <==> c in pool && !v.router(c))
  }

  /** Ranking the router pool and then the rest is one ranking of all: routers outrank the rest. */
  lemma TwoPoolsAreOneRanking(v: View, pool: seq<u32>, early: seq<u32>, late: seq<u32>, high: bool)
    requires Distinct(pool) && Splits(v, pool, early, late)
    ensures Pick(v, early, high) + Pick(v, late, high) == Pick(v, pool, high)
  {
    PickSorts(v, pool, high);
    PickSorts(v, early, high);
    PickSorts(v, late, high);
    var e, l := Pick(v, early, high), Pick(v, late, high);
    forall i | 0 <= i < |e| ensures e[i] in early { assert e[i] in Values(e); }
    forall i | 0 <= i < |l| ensures l[i] in late { assert l[i] in Values(l); }
    forall c ensures c in Values(e + l) <==> c in EligibleOf(v, pool) {
      assert c in Values(e) <==> c in EligibleOf(v, early);
      assert c in Values(l) <==> c in EligibleOf(v, late);
    }
    assert Values(e + l) == EligibleOf(v, pool);
    OneOrder(v, e + l, Pick(v, pool, high), high);
  }

  // ---- The plan of one node ----

  datatype Ranked = Ranked(index: nat, delay: nat, coverageFor: u32)

  /** Reservations come first, then a rung for every router, then a late rung for everybody else. */
  function Takes(v: View, reserved: nat, order: seq<u32>): seq<Take> {
    seq(reserved + |order|, i requires 0 <= i < reserved + |order| =>
      if i < reserved then Reserved else if v.router(order[i - reserved]) then Rung else LateRung)
  }

  /** Where a node that ranks itself sends: its rank behind the reservations, and that position. */
  function Plan(v: View, pool: seq<u32>, reserved: nat, me: u32, slotTime: u32, half: u32, high: bool): Option<Ranked>
  {
    PlanIn(v, Pick(v, pool, high), reserved, me, slotTime, half)
  }

  function PlanIn(v: View, order: seq<u32>, reserved: nat, me: u32, slotTime: u32, half: u32): Option<Ranked> {
    var mine := Find(order, me);
    if mine.None? || !Eligible(v, me) then None
    else Some(Ranked(Min(reserved + mine.value, 255),
                     Positions(v, order, reserved, slotTime, half)[reserved + mine.value], UniqueOf(v, me)[0]))
  }

  /** A node ranks itself exactly when it is a candidate that has not sent and adds coverage. */
  lemma RankedExactly(v: View, pool: seq<u32>, reserved: nat, me: u32, slotTime: u32, half: u32, high: bool)
    requires Distinct(pool)
    ensures Plan(v, pool, reserved, me, slotTime, half, high).Some? <==> me in pool && Eligible(v, me)
  {
    PickSorts(v, pool, high);
    var order := Pick(v, pool, high);
    assert me in order <==> me in Values(order);
    assert me in order <==> me in EligibleOf(v, pool);
    assert Find(order, me).Some? <==> me in order;
    hide Positions, Pick, Eligible, UniqueOf;
  }

  /** The delay `commit_relay` schedules for a plan. */
  function CommitDelay(r: Ranked, half: u32, id: u32, node: u32): nat {
    Min(r.delay + SlotTieBreakMs(half, id, node), U32_MAX)
  }

  /** The instant it commits to, on the wrapping clock. */
  function CommitAt(r: Ranked, half: u32, id: u32, node: u32, now: u32): u32 {
    WrappingAdd(now, CommitDelay(r, half, id, node))
  }

  ghost predicate PlanRoomy(pool: seq<u32>, reserved: nat, slotTime: u32, half: u32) {
    Roomy(slotTime, half, reserved + |pool|)
  }

  lemma {:induction false} PickLength(v: View, pool: seq<u32>, high: bool)
    ensures |Pick(v, pool, high)| <= |pool|
    decreases |pool|
  {
    var best := Best(v, pool, high);
    if best.Some? { PickLength(v, SwapErase(pool, best.value.id), high); }
  }

  lemma TakesLateLast(v: View, pool: seq<u32>, reserved: nat, high: bool)
    requires Distinct(pool)
    ensures LateLast(Takes(v, reserved, Pick(v, pool, high)))
  {
    PickSorts(v, pool, high);
    var order := Pick(v, pool, high);
    var takes := Takes(v, reserved, order);
    forall i, j | 0 <= i < j < |takes| && takes[i] == LateRung ensures takes[j] == LateRung {
      assert Precedes(v, order[i - reserved], order[j - reserved], high);
    }
  }

  // ---- Peers with views of their own ----

  /** Two nodes' views of one candidate: whether it adds coverage, and its entry in the ranking. */
  ghost predicate Agree(v: View, w: View, c: u32) {
    (Eligible(v, c) <==> Eligible(w, c)) && (Eligible(v, c) ==> Describe(v, c) == Describe(w, c))
  }

  ghost predicate AgreeOn(v: View, w: View, pool: seq<u32>) {
    forall c :: c in pool ==> Agree(v, w, c)
  }

  lemma {:induction false} BestAgrees(v: View, w: View, pool: seq<u32>, high: bool)
    requires AgreeOn(v, w, pool)
    ensures Best(v, pool, high) == Best(w, pool, high)
  {
    if pool == [] {
    } else {
      var n := |pool| - 1;
      assert pool[n] in pool;
      BestAgrees(v, w, pool[..n], high);
      assert Agree(v, w, pool[n]);
      hide Eligible, Describe, Better;
    }
  }

  lemma {:induction false} PickAgrees(v: View, w: View, pool: seq<u32>, high: bool)
    requires AgreeOn(v, w, pool)
    ensures Pick(v, pool, high) == Pick(w, pool, high)
    decreases |pool|
  {
    hide Agree, IsBest;
    BestAgrees(v, w, pool, high);
    var best := Best(v, pool, high);
    if best.Some? {
      var rest := SwapErase(pool, best.value.id);
      EraseKeepsMembers(pool, best.value.id);
      BestIsMember(v, pool, high);
      PickAgrees(v, w, rest, high);
    }
  }

  lemma BestIsMember(v: View, pool: seq<u32>, high: bool)
    requires Best(v, pool, high).Some?
    ensures Best(v, pool, high).value.id in pool
  {
    assert IsBest(v, pool, high, Best(v, pool, high));
  }

  lemma EraseKeepsMembers(pool: seq<u32>, node: u32)
    ensures forall c :: c in SwapErase(pool, node) ==> c in pool
  {
    var found := Find(pool, node);
    if found.Some? {
      var last := |pool| - 1;
      var moved := pool[found.value := pool[last]];
      assert SwapErase(pool, node) == moved[..last];
      assert forall i :: 0 <= i < |moved| ==> moved[i] in pool;
    }
  }

  /** Nodes that agree on the members of the pool give every node the same plan. */
  lemma PlanAgrees(v: View, w: View, pool: seq<u32>, reserved: nat, me: u32, slotTime: u32, half: u32, high: bool)
    requires Distinct(pool) && AgreeOn(v, w, pool)
    ensures Plan(v, pool, reserved, me, slotTime, half, high) == Plan(w, pool, reserved, me, slotTime, half, high)
  {
    var order := Pick(v, pool, high);
    PickAgrees(v, w, pool, high);
    PicksAreEligible(v, pool, high);
    TakesAgree(v, w, order, reserved);
    if me in order { assert Agree(v, w, me) && Describe(v, me).coverageFor == Describe(w, me).coverageFor; }
    hide Pick, Takes, Assign, Eligible, UniqueOf, Describe;
  }

  lemma TakesAgree(v: View, w: View, order: seq<u32>, reserved: nat)
    requires AgreeOn(v, w, order) && forall c :: c in order ==> Eligible(v, c)
    ensures Takes(v, reserved, order) == Takes(w, reserved, order)
  {
    forall i | 0 <= i < |order| ensures v.router(order[i]) == w.router(order[i]) {
      assert order[i] in order && Agree(v, w, order[i]) && Eligible(v, order[i]);
      assert Describe(v, order[i]).role == Describe(w, order[i]).role;
    }
  }

  /**
   Peers with views of their own that agree on the candidates, on each candidate's entry in the ranking, on the
   reservations, the packet and its airtime: two nodes that rank themselves get different indices, positions at
   least half an airtime apart in the order of their indices, and after both added their own tie-break the
   earlier one is first.
   */
  lemma LadderSafety(
    v: View, w: View, poolA: seq<u32>, poolB: seq<u32>, reserved: nat, slotTime: u32, airtime: u32, id: u32,
    a: u32, b: u32)
    requires a != b && Distinct(poolA) && Distinct(poolB) && Values(poolA) == Values(poolB)
    requires AgreeOn(v, w, poolB)
    requires PlanRoomy(poolA, reserved, slotTime, HalfAirtimeMs(airtime))
    requires Plan(v, poolA, reserved, a, slotTime, HalfAirtimeMs(airtime), id % 2 == 1).Some?
    requires Plan(w, poolB, reserved, b, slotTime, HalfAirtimeMs(airtime), id % 2 == 1).Some?
    ensures var half := HalfAirtimeMs(airtime);
            var planA := Plan(v, poolA, reserved, a, slotTime, half, id % 2 == 1).value;
            var planB := Plan(w, poolB, reserved, b, slotTime, half, id % 2 == 1).value;
            ClearOf(a, planA, b, planB, half, id) || ClearOf(b, planB, a, planA, half, id)
  {
    var half := HalfAirtimeMs(airtime);
    PlanAgrees(v, w, poolB, reserved, b, slotTime, half, id % 2 == 1);
    PickIgnoresPoolOrder(v, poolA, poolB, id % 2 == 1);
    OrderSpaced(v, poolA, reserved, slotTime, half, id % 2 == 1);
    LadderInOrder(v, Pick(v, poolA, id % 2 == 1), reserved, slotTime, half, id, a, b);
  }

  /** The positions handed out while ranking an order, reservations included. */
  function Positions(v: View, order: seq<u32>, reserved: nat, slotTime: u32, half: u32): (r: seq<nat>)
    ensures |r| == reserved + |order|
  {
    Assign(NewAllocator(slotTime, half), Takes(v, reserved, order))
  }

  ghost predicate Spaced(positions: seq<nat>, reserved: nat, half: u32) {
    && |positions| <= 255
    && forall i, j :: reserved <= i < j < |positions| ==> positions[i] + half <= positions[j] < U32_SPAN
  }

  lemma OrderSpaced(v: View, pool: seq<u32>, reserved: nat, slotTime: u32, half: u32, high: bool)
    requires Distinct(pool) && PlanRoomy(pool, reserved, slotTime, half)
    ensures Spaced(Positions(v, Pick(v, pool, high), reserved, slotTime, half), reserved, half)
  {
    PickLength(v, pool, high);
    TakesLateLast(v, pool, reserved, high);
    TakesSpaced(v, Pick(v, pool, high), |pool|, reserved, slotTime, half);
  }

  lemma TakesSpaced(v: View, order: seq<u32>, size: nat, reserved: nat, slotTime: u32, half: u32)
    requires |order| <= size && Roomy(slotTime, half, reserved + size) && LateLast(Takes(v, reserved, order))
    ensures Spaced(Positions(v, order, reserved, slotTime, half), reserved, half)
  {
    var takes := Takes(v, reserved, order);
    RoomyShrinks(slotTime, half, |takes|, reserved + size);
    forall i, j | reserved <= i < j < |takes|
      ensures Positions(v, order, reserved, slotTime, half)[i] + half
              <= Positions(v, order, reserved, slotTime, half)[j] < U32_SPAN
    {
      RankedPositionsSpaced(slotTime, half, takes, i, j);
    }
  }

  lemma LadderInOrder(v: View, order: seq<u32>, reserved: nat, slotTime: u32, half: u32, id: u32, a: u32, b: u32)
    requires half >= MIN_RUNG_SPACING_MS && a != b
    requires Spaced(Positions(v, order, reserved, slotTime, half), reserved, half)
    requires PlanIn(v, order, reserved, a, slotTime, half).Some? && PlanIn(v, order, reserved, b, slotTime, half).Some?
    ensures var planA := PlanIn(v, order, reserved, a, slotTime, half).value;
            var planB := PlanIn(v, order, reserved, b, slotTime, half).value;
            ClearOf(a, planA, b, planB, half, id) || ClearOf(b, planB, a, planA, half, id)
  {
    var planA := PlanIn(v, order, reserved, a, slotTime, half).value;
    var planB := PlanIn(v, order, reserved, b, slotTime, half).value;
    var i, j := Find(order, a).value, Find(order, b).value;
    assert order[i] == a && order[j] == b;
    if i < j { CommitsClear(a, planA, b, planB, half, id); } else { CommitsClear(b, planB, a, planA, half, id); }
  }

  /** Two plans over one order: the one with the earlier rank is clear of the other, whatever their clocks read. */
  ghost predicate ClearOf(a: u32, planA: Ranked, b: u32, planB: Ranked, half: u32, id: u32) {
    && planA.index < planB.index
    && planA.delay + half <= planB.delay
    && forall nowA: u32, nowB: u32 ::
         WrappingSub(CommitAt(planA, half, id, a, nowA), nowA) < WrappingSub(CommitAt(planB, half, id, b, nowB), nowB)
  }

  lemma CommitsClear(a: u32, planA: Ranked, b: u32, planB: Ranked, half: u32, id: u32)
    requires half >= MIN_RUNG_SPACING_MS
    requires planA.index < planB.index && planA.delay + half <= planB.delay < U32_SPAN
    ensures ClearOf(a, planA, b, planB, half, id)
  {
    TieBreaksKeepOrder(half, id, a, b, planA.delay, planB.delay);
    TieBreakBelowSpacing(half, id, a);
  }

  lemma RoomyShrinks(slotTime: u32, half: u32, n: nat, m: nat)
    requires n <= m && Roomy(slotTime, half, m)
    ensures Roomy(slotTime, half, n)
  {
    Product(n + 1, m + 1, half);
  }

  // ---- The planner over its own arrays ----

  class NodeSet {
    const ids: array<u32>
    var count: nat

    ghost predicate Valid()
      reads this, ids
    {
      ids.Length == MAX_CANDIDATES && count <= MAX_CANDIDATES && Distinct(ids[..count]) && 0 !in ids[..count]
    }

    function Contents(): seq<u32>
      requires count <= ids.Length
      reads this, ids
    {
      ids[..count]
    }

    constructor ()
      ensures Valid() && fresh(ids) && Contents() == []
    {
      ids := new u32[MAX_CANDIDATES](_ => 0);
      count := 0;
    }

    method Contains(node: u32) returns (r: bool)
      requires Valid()
      ensures r <==> node in Contents()
    {
      for i := 0 to count
        invariant node !in ids[..i]
      {
        if ids[i] == node {
          return true;
        }
      }
      return false;
    }

    method Insert(node: u32) returns (added: bool)
      requires Valid()
      modifies this`count, ids
      ensures Valid()
      ensures added <==> node != 0 && node !in old(Contents()) && |old(Contents())| < MAX_CANDIDATES
      ensures Contents() == if added then old(Contents()) + [node] else old(Contents())
    {
      var present := Contains(node);
      if node == 0 || present || count >= MAX_CANDIDATES {
        return false;
      }
      ids[count] := node;
      count := count + 1;
      assert ids[..count] == old(Contents()) + [node];
      return true;
    }

    method Erase(node: u32)
      requires Valid()
      modifies this`count, ids
      ensures Valid()
      ensures Contents() == SwapErase(old(Contents()), node)
    {
      ghost var was := Contents();
      for i := 0 to count
        invariant count == old(count) && Contents() == was
        invariant node !in was[..i]
      {
        if ids[i] == node {
          assert was[i] == node;
          var found := Find(was, node);
          assert found == Some(i);
          ids[i] := ids[count - 1];
          count := count - 1;
          assert Contents() == SwapRemove(was, i);
          SwapRemoveDistinct(was, i);
          assert 0 !in Contents() by { assert forall x :: x in Contents() <==> x in Values(Contents()); }
          return;
        }
      }
      assert was[..count] == was;
    }
  }

  /** The loop's view of one candidate: none when it has sent already or adds no coverage. */
  method Appraise(v: View, id: u32) returns (c: Option<Candidate>)
    ensures c.Some? <==> Eligible(v, id)
    ensures c.Some? ==> c.value == Describe(v, id)
  {
    if v.transmitted(id) {
      return None;
    }
    var unique := UniqueTargets(v.coverage(id), v.covered);
    if |unique| == 0 {
      return None;
    }
    return Some(Candidate(id, |unique|, v.meanCost(id, unique) / COST_BUCKET * COST_BUCKET, v.tier(id),
                          if v.router(id) then 1 else 0, unique[0]));
  }

  /** The loop of `find_best_relay_candidate`. */
  method FindBest(v: View, pool: NodeSet, high: bool) returns (best: Option<Candidate>)
    requires pool.Valid()
    ensures best == Best(v, pool.Contents(), high)
  {
    best := None;
    for i := 0 to pool.count
      invariant best == Best(v, pool.ids[..i], high)
    {
      assert pool.ids[..i + 1][..i] == pool.ids[..i];
      var id := pool.ids[i];
      var appraised := Appraise(v, id);
      if appraised.None? {
        continue;
      }
      var c := appraised.value;
      if best.None? || Beats(c, best.value, high) {
        best := Some(c);
      }
    }
    assert pool.ids[..pool.count] == pool.Contents();
  }

  /** The comparison as the loop makes it: strictly better first, then a tie by node id. */
  predicate Beats(c: Candidate, best: Candidate, high: bool)
    ensures Beats(c, best, high) <==> Better(c, best, high)
  {
    || c.role > best.role
    || (c.role == best.role && c.tier > best.tier)
    || (c.role == best.role && c.tier == best.tier && c.coverageCount > best.coverageCount)
    || (c.role == best.role && c.tier == best.tier && c.coverageCount == best.coverageCount && c.cost < best.cost)
    || (c.role == best.role && c.tier == best.tier && c.coverageCount == best.coverageCount && c.cost == best.cost
        && if high then c.id > best.id else c.id < best.id)
  }

  method UniqueTargets(targets: seq<u32>, covered: set<u32>) returns (unique: seq<u32>)
    ensures unique == Unique(targets, covered)
  {
    unique := [];
    for i := 0 to |targets|
      invariant unique == Unique(targets[..i], covered)
    {
      assert targets[..i + 1][..i] == targets[..i];
      if targets[i] !in covered {
        unique := unique + [targets[i]];
      }
    }
    assert targets[..|targets|] == targets;
  }

  lemma EraseAt(pool: seq<u32>, i: nat)
    requires Distinct(pool) && i < |pool|
    ensures var after := SwapErase(pool, pool[i]);
            && |after| == |pool| - 1
            && after[..i] == pool[..i]
            && forall c :: c in after <==> c in pool && c != pool[i]
  {
    SwapEraseSet(pool, pool[i]);
    assert Find(pool, pool[i]) == Some(i);
    var after := SwapErase(pool, pool[i]);
    forall c ensures c in after <==> c in pool && c != pool[i] {
      assert c in Values(after) <==> c in Values(pool) - {pool[i]};
    }
  }

  /** The first `i` candidates stay; everybody moved so far may not take the early window. */
  ghost predicate Splitting(v: View, all: seq<u32>, pool: seq<u32>, late: seq<u32>, i: nat) {
    && i <= |pool| && |pool| + |late| == |all|
    && Distinct(pool)
    && (forall c :: c in pool[..i] ==> v.router(c))
    && (forall c :: c in all <==> c in pool || c in late)
    && (forall c :: c in late ==> !v.router(c) && c !in pool)
  }

  lemma SplitStep(v: View, all: seq<u32>, pool: seq<u32>, late: seq<u32>, i: nat)
    requires Splitting(v, all, pool, late, i) && i < |pool|
    ensures v.router(pool[i]) ==> Splitting(v, all, pool, late, i + 1)
    ensures !v.router(pool[i]) ==> Splitting(v, all, SwapErase(pool, pool[i]), late + [pool[i]], i)
    ensures pool[i] !in late
  {
    EraseAt(pool, i);
    assert pool[..i + 1] == pool[..i] + [pool[i]];
  }

  /** Moving everybody who may not take the early window to the late pool, while scanning. */
  method SplitPools(v: View, candidates: NodeSet) returns (late: NodeSet)
    requires candidates.Valid()
    modifies candidates`count, candidates.ids
    ensures candidates.Valid() && late.Valid() && fresh(late) && fresh(late.ids)
    ensures Splits(v, old(candidates.Contents()), candidates.Contents(), late.Contents())
    ensures |candidates.Contents()| + |late.Contents()| == |old(candidates.Contents())|
  {
    ghost var all := candidates.Contents();
    late := new NodeSet();
    var i := 0;
    while i < candidates.count
      invariant candidates.Valid() && late.Valid() && fresh(late) && fresh(late.ids)
      invariant Splitting(v, all, candidates.Contents(), late.Contents(), i)
      decreases candidates.count - i
    {
      var id := candidates.ids[i];
      assert id == candidates.Contents()[i];
      SplitStep(v, all, candidates.Contents(), late.Contents(), i);
      if v.router(id) {
        i := i + 1;
      } else {
        assert id in candidates.Contents();
        candidates.Erase(id);
        var added := late.Insert(id);
        assert added;
      }
    }
    assert candidates.Contents()[..i] == candidates.Contents();
  }

  /** One turn of the ranking: the best of the pool leaves it and receives the next position. */
  method RankNext(v: View, pool: NodeSet, positions: PositionAllocator, take: Take, high: bool)
    returns (best: Option<Candidate>, index: nat, delay: nat)
    requires pool.Valid() && Distinct(pool.Contents())
    modifies pool`count, pool.ids
    modifies positions`cursorMs, positions`lastPlacedEndMs, positions`placed, positions`ladderStartMs, positions`nextIndex
    ensures pool.Valid() && Distinct(pool.Contents())
    ensures best == Best(v, old(pool.Contents()), high)
    ensures if best.None? then pool.Contents() == old(pool.Contents()) && positions.Model() == old(positions.Model())
            else
              && pool.Contents() == SwapErase(old(pool.Contents()), best.value.id)
              && |pool.Contents()| < |old(pool.Contents())|
              && index == old(positions.Model()).nextIndex && delay == old(positions.Model()).Position(take)
              && positions.Model() == old(positions.Model()).After(take)
  {
    index, delay := 0, 0;
    best := FindBest(v, pool, high);
    if best.Some? {
      ghost var rest := pool.Contents();
      var id := best.value.id;
      BestIsChosen(v, rest, high);
      pool.Erase(id);
      SwapEraseSet(rest, id);
      if v.transmitted(id) {
        // The absorbing branch of the loop: a pick never has transmitted.
        assert false;
      }
      index := positions.nextIndex;
      delay := positions.TakePosition(take);
    }
  }

  /** Ranking one pool until the node itself comes up. */
  method RankPool(v: View, pool: NodeSet, me: u32, positions: PositionAllocator, take: Take, high: bool)
    returns (plan: Option<Ranked>)
    requires pool.Valid() && Distinct(pool.Contents())
    modifies pool`count, pool.ids
    modifies positions`cursorMs, positions`lastPlacedEndMs, positions`placed, positions`ladderStartMs, positions`nextIndex
    ensures pool.Valid()
    ensures var picks := Pick(v, old(pool.Contents()), high); var a := old(positions.Model());
            && (plan.None? ==> me !in picks && positions.Model() == Advance(a, Repeat(take, |picks|)))
            && (plan.Some? ==>
                  && me in picks && Eligible(v, me)
                  && var before := Advance(a, Repeat(take, Find(picks, me).value));
                     plan.value == Ranked(before.nextIndex, before.Position(take), UniqueOf(v, me)[0]))
  {
    ghost var picks, a := Pick(v, pool.Contents(), high), positions.Model();
    ghost var done := 0;
    plan := None;
    assert Advance(a, Repeat(take, 0)) == a;
    hide Pick, Advance, Allocator.Position, Allocator.After, UniqueOf, Eligible, SwapErase;
    while pool.count > 0
      invariant pool.Valid() && Distinct(pool.Contents())
      invariant done <= |picks| && picks[done..] == Pick(v, pool.Contents(), high)
      invariant me !in picks[..done]
      invariant positions.Model() == Advance(a, Repeat(take, done))
      decreases pool.count
    {
      ghost var rest := pool.Contents();
      var best, index, delay := RankNext(v, pool, positions, take, high);
      if best.None? {
        NothingPicked(v, rest, high);
        break;
      }
      PickNext(v, picks, done, rest, high);
      BestIsChosen(v, rest, high);
      RepeatStep(a, take, done);
      if best.value.id == me {
        FindIs(picks, me, done);
        return Some(Ranked(index, delay, best.value.coverageFor));
      }
      done := done + 1;
    }
    if pool.count == 0 { NothingPicked(v, pool.Contents(), high); }
    assert picks[done..] == [];
    assert picks[..done] == picks;
  }

  lemma BestIsChosen(v: View, pool: seq<u32>, high: bool)
    requires Best(v, pool, high).Some?
    ensures var best := Best(v, pool, high).value;
            && best.id in pool && Eligible(v, best.id) && !v.transmitted(best.id)
            && best.coverageFor == UniqueOf(v, best.id)[0]
  {
    assert IsBest(v, pool, high, Best(v, pool, high));
  }

  lemma NothingPicked(v: View, pool: seq<u32>, high: bool)
    requires pool == [] || Best(v, pool, high).None?
    ensures Pick(v, pool, high) == []
  {
  }

  lemma PickNext(v: View, picks: seq<u32>, done: nat, pool: seq<u32>, high: bool)
    requires done <= |picks| && picks[done..] == Pick(v, pool, high)
    requires Best(v, pool, high).Some?
    ensures var id := Best(v, pool, high).value.id;
            && done < |picks| && picks[done] == id
            && picks[done + 1..] == Pick(v, SwapErase(pool, id), high)
            && picks[..done + 1] == picks[..done] + [id]
  {
    var id := Best(v, pool, high).value.id;
    var rest := Pick(v, SwapErase(pool, id), high);
    assert picks[done..] == [id] + rest;
    assert picks[done..][0] == picks[done];
    assert picks[done + 1..] == picks[done..][1..] == rest;
  }

  /** An order whose first part is routers only and whose second part has none. */
  ghost predicate SplitOrder(v: View, early: seq<u32>, late: seq<u32>) {
    (forall c :: c in early ==> v.router(c)) && (forall c :: c in late ==> !v.router(c))
  }

  /** The take series of a plan, by pools. */
  lemma TakesByPools(v: View, reserved: nat, early: seq<u32>, late: seq<u32>, k: nat)
    requires SplitOrder(v, early, late)
    requires k < |early| + |late|
    ensures var takes := Takes(v, reserved, early + late);
            if k < |early| then
              takes[..reserved + k] == Repeat(Reserved, reserved) + Repeat(Rung, k) && takes[reserved + k] == Rung
            else
              takes[..reserved + k]
              == Repeat(Reserved, reserved) + Repeat(Rung, |early|) + Repeat(LateRung, k - |early|)
              && takes[reserved + k] == LateRung
  {
    var order := early + late;
    forall i | 0 <= i < |order| ensures v.router(order[i]) <==> i < |early| {
      if i < |early| { assert order[i] in early; } else { assert order[i] in late; }
    }
  }

  lemma PlanByPools(
    v: View, reserved: nat, slotTime: u32, half: u32, early: seq<u32>, late: seq<u32>, k: nat)
    requires SplitOrder(v, early, late)
    requires k < |early| + |late|
    ensures var start := Advance(NewAllocator(slotTime, half), Repeat(Reserved, reserved));
            var before := if k < |early| then Advance(start, Repeat(Rung, k))
                          else Advance(Advance(start, Repeat(Rung, |early|)), Repeat(LateRung, k - |early|));
            && before.nextIndex == Min(reserved + k, 255)
            && Positions(v, early + late, reserved, slotTime, half)[reserved + k]
               == before.Position(if k < |early| then Rung else LateRung)
  {
    var a := NewAllocator(slotTime, half);
    var takes := Takes(v, reserved, early + late);
    TakesByPools(v, reserved, early, late, k);
    AssignAt(a, takes, reserved + k);
    AdvanceIndex(a, takes[..reserved + k]);
    var r := Repeat(Reserved, reserved);
    if k < |early| {
      AdvanceAppend(a, r, Repeat(Rung, k));
    } else {
      AdvanceAppend(a, r, Repeat(Rung, |early|));
      AdvanceAppend(a, r + Repeat(Rung, |early|), Repeat(LateRung, k - |early|));
    }
  }

  /** What a node ranked `k`-th in its pool is given. */
  function Place(v: View, before: Allocator, take: Take, me: u32): Ranked
    requires Eligible(v, me)
  {
    Ranked(before.nextIndex, before.Position(take), UniqueOf(v, me)[0])
  }

  /** The plan, pool by pool. */
  lemma PlanFromPools(v: View, all: seq<u32>, early: seq<u32>, late: seq<u32>, reserved: nat, me: u32,
                      slotTime: u32, half: u32, high: bool)
    requires Distinct(all) && Splits(v, all, early, late)
    ensures var e, l := Pick(v, early, high), Pick(v, late, high);
            var start := Advance(NewAllocator(slotTime, half), Repeat(Reserved, reserved));
            && (me in e + l ==> Eligible(v, me))
            && Plan(v, all, reserved, me, slotTime, half, high) ==
               if me in e then Some(Place(v, Advance(start, Repeat(Rung, Find(e, me).value)), Rung, me))
               else if me in l then
                 var next := Advance(start, Repeat(Rung, |e|));
                 Some(Place(v, Advance(next, Repeat(LateRung, Find(l, me).value)), LateRung, me))
               else None
  {
    hide PlanIn, Pick, Place, Advance, NewAllocator, Repeat, Find, Eligible, SplitOrder, Splits, Distinct;
    PoolsRanked(v, all, early, late, high, me);
    PlanInPools(v, Pick(v, early, high), Pick(v, late, high), reserved, me, slotTime, half);
  }

  /** The index and position of rank `k` in an order made of two pools. */
  lemma RankInPools(v: View, e: seq<u32>, l: seq<u32>, reserved: nat, me: u32, slotTime: u32, half: u32, k: nat)
    requires SplitOrder(v, e, l)
    requires k < |e| + |l| && Eligible(v, me)
    ensures var start := Advance(NewAllocator(slotTime, half), Repeat(Reserved, reserved));
            Ranked(Min(reserved + k, 255), Positions(v, e + l, reserved, slotTime, half)[reserved + k],
                   UniqueOf(v, me)[0]) ==
            if k < |e| then Place(v, Advance(start, Repeat(Rung, k)), Rung, me)
            else Place(v, Advance(Advance(start, Repeat(Rung, |e|)), Repeat(LateRung, k - |e|)), LateRung, me)
  {
    PlanByPools(v, reserved, slotTime, half, e, l, k);
  }

  lemma PlanInPools(v: View, e: seq<u32>, l: seq<u32>, reserved: nat, me: u32, slotTime: u32, half: u32)
    requires SplitOrder(v, e, l)
    requires Find(e + l, me) == if me in e then Find(e, me)
                                else if me in l then Some(|e| + Find(l, me).value) else None
    requires me in e + l ==> Eligible(v, me)
    ensures var start := Advance(NewAllocator(slotTime, half), Repeat(Reserved, reserved));
            PlanIn(v, e + l, reserved, me, slotTime, half) ==
            if me in e then Some(Place(v, Advance(start, Repeat(Rung, Find(e, me).value)), Rung, me))
            else if me in l then
              var next := Advance(start, Repeat(Rung, |e|));
              Some(Place(v, Advance(next, Repeat(LateRung, Find(l, me).value)), LateRung, me))
            else None
  {
    hide Positions, Advance, Place, NewAllocator, Repeat, Find, Eligible, UniqueOf, SplitOrder;
    if me in e {
      RankInPools(v, e, l, reserved, me, slotTime, half, Find(e, me).value);
    } else if me in l {
      RankInPools(v, e, l, reserved, me, slotTime, half, |e| + Find(l, me).value);
    } else {
      assert Find(e + l, me) == None;
    }
  }

  /** The ranking loops of `plan_broadcast_relay`, after the reservations have been counted. */
  method PlanBroadcastRelay(
    v: View, candidates: NodeSet, reserved: nat, me: u32, slotTime: u32, halfAirtime: u32, packetId: u32)
    returns (plan: Option<Ranked>)
    requires candidates.Valid()
    modifies candidates`count, candidates.ids
    ensures plan == Plan(v, old(candidates.Contents()), reserved, me, slotTime,
                         Max(halfAirtime, MIN_RUNG_SPACING_MS), packetId % 2 == 1)
  {
    var half := Max(halfAirtime, MIN_RUNG_SPACING_MS);
    var high := packetId % 2 == 1;
    var positions := ReservePositions(slotTime, half, reserved);
    ghost var all := candidates.Contents();
    var late := SplitPools(v, candidates);
    PlanFromPools(v, all, candidates.Contents(), late.Contents(), reserved, me, slotTime, half, high);
    plan := RankPool(v, candidates, me, positions, Rung, high);
    if plan.None? {
      plan := RankPool(v, late, me, positions, LateRung, high);
    }
  }

  method ReservePositions(slotTime: u32, half: u32, reserved: nat) returns (positions: PositionAllocator)
    ensures fresh(positions)
    ensures positions.Model() == Advance(NewAllocator(slotTime, half), Repeat(Reserved, reserved))
  {
    positions := new PositionAllocator(slotTime, half);
    for i := 0 to reserved
      invariant positions.Model() == Advance(NewAllocator(slotTime, half), Repeat(Reserved, i))
    {
      RepeatStep(NewAllocator(slotTime, half), Reserved, i);
      var _ := positions.TakePosition(Reserved);
    }
  }

  lemma PoolsRanked(v: View, all: seq<u32>, early: seq<u32>, late: seq<u32>, high: bool, me: u32)
    requires Distinct(all) && Splits(v, all, early, late)
    ensures var e, l := Pick(v, early, high), Pick(v, late, high);
            && Pick(v, all, high) == e + l
            && SplitOrder(v, e, l)
            && Find(e + l, me) == (if me in e then Find(e, me)
                                   else if me in l then Some(|e| + Find(l, me).value) else None)
            && (me in e + l ==> Eligible(v, me))
  {
    TwoPoolsAreOneRanking(v, all, early, late, high);
    PicksAreEligible(v, early, high);
    PicksAreEligible(v, late, high);
    FindAppend(Pick(v, early, high), Pick(v, late, high), me);
  }

  lemma PicksAreEligible(v: View, pool: seq<u32>, high: bool)
    requires Distinct(pool)
    ensures forall c :: c in Pick(v, pool, high) ==> c in pool && Eligible(v, c)
  {
    PickSorts(v, pool, high);
    assert forall c :: c in Pick(v, pool, high) ==> c in Values(Pick(v, pool, high));
  }
}
