/** The ranking of broadcast relays read off the view itself: who is picked, and who comes before whom. */
module RankingRule {
  import opened Machine
  import opened RelayWindow
  import opened BroadcastRelay
  import opened WindowPlan

  /** The targets that are not covered yet, in their order. */
  function New(targets: seq<u32>, covered: set<u32>): seq<u32> {
    if targets == [] then []
    else (if targets[0] in covered then [] else [targets[0]]) + New(targets[1..], covered)
  }

  function Gain(v: View, c: u32): seq<u32> { New(v.coverage(c), v.covered) }

  /** Routers first, then the higher tier, more new targets, the lower bucket of fifty, and the id by the parity. */
  predicate Before(v: View, a: u32, b: u32, high: bool) {
    if v.router(a) != v.router(b) then v.router(a)
    else if v.tier(a) != v.tier(b) then v.tier(a) > v.tier(b)
    else if |Gain(v, a)| != |Gain(v, b)| then |Gain(v, a)| > |Gain(v, b)|
    else if v.meanCost(a, Gain(v, a)) / 50 != v.meanCost(b, Gain(v, b)) / 50 then
      v.meanCost(a, Gain(v, a)) / 50 < v.meanCost(b, Gain(v, b)) / 50
    else if high then a > b
    else a < b
  }

  lemma {:induction false} NewAppend(a: seq<u32>, x: u32, covered: set<u32>)
    ensures New(a + [x], covered) == New(a, covered) + (if x in covered then [] else [x])
  {
    if a == [] {
      assert [x][1..] == [];
    } else {
      assert (a + [x])[0] == a[0] && (a + [x])[1..] == a[1..] + [x];
      NewAppend(a[1..], x, covered);
    }
  }

  lemma {:induction false} UniqueIsNew(targets: seq<u32>, covered: set<u32>)
    ensures Unique(targets, covered) == New(targets, covered)
  {
    if targets != [] {
      var n := |targets| - 1;
      UniqueIsNew(targets[..n], covered);
      NewAppend(targets[..n], targets[n], covered);
      assert targets == targets[..n] + [targets[n]];
    }
  }

  lemma {:induction false} SomethingNew(targets: seq<u32>, covered: set<u32>)
    ensures New(targets, covered) != [] <==> exists t :: t in targets && t !in covered
  {
    if targets != [] {
      SomethingNew(targets[1..], covered);
      assert forall t :: t in targets <==> t == targets[0] || t in targets[1..];
    }
  }

  lemma BucketsOfFifty(x: nat, y: nat)
    ensures x / COST_BUCKET * COST_BUCKET < y / COST_BUCKET * COST_BUCKET <==> x / 50 < y / 50
    ensures x / COST_BUCKET * COST_BUCKET == y / COST_BUCKET * COST_BUCKET <==> x / 50 == y / 50
  {
  }

  lemma BetterIsBefore(v: View, a: u32, b: u32, high: bool)
    requires Eligible(v, a) && Eligible(v, b)
    ensures Better(Describe(v, a), Describe(v, b), high) <==> Before(v, a, b, high)
  {
    UniqueIsNew(v.coverage(a), v.covered);
    UniqueIsNew(v.coverage(b), v.covered);
    BucketsOfFifty(v.meanCost(a, Gain(v, a)), v.meanCost(b, Gain(v, b)));
    hide Unique, New;
  }

  /** The picks are the candidates that have not sent and reach somebody new, each before the next by that rule. */
  lemma PicksByRule(v: View, pool: seq<u32>, high: bool)
    requires Distinct(pool)
    ensures var picks := Pick(v, pool, high);
            && (forall c :: c in picks <==> c in pool && !v.transmitted(c)
                                            && exists t :: t in v.coverage(c) && t !in v.covered)
            && (forall i, j :: 0 <= i < j < |picks| ==> Before(v, picks[i], picks[j], high) && picks[i] != picks[j])
  {
    var picks := Pick(v, pool, high);
    PickSorts(v, pool, high);
    forall c ensures c in picks <==> c in pool && !v.transmitted(c)
                                     && exists t :: t in v.coverage(c) && t !in v.covered {
      UniqueIsNew(v.coverage(c), v.covered);
      SomethingNew(v.coverage(c), v.covered);
      assert c in Values(picks) <==> c in EligibleOf(v, pool);
    }
    forall i, j | 0 <= i < j < |picks| ensures Before(v, picks[i], picks[j], high) && picks[i] != picks[j] {
      assert Precedes(v, picks[i], picks[j], high);
      BetterIsBefore(v, picks[i], picks[j], high);
    }
    hide Pick, Before, Precedes, Eligible;
  }

  /** The best candidate is the one that nobody precedes. */
  lemma BestByRule(v: View, pool: seq<u32>, high: bool)
    ensures var best := Best(v, pool, high);
            if best.None? then
              forall c :: c in pool ==> v.transmitted(c) || forall t :: t in v.coverage(c) ==> t in v.covered
            else
              && best.value.id in pool && !v.transmitted(best.value.id)
              && best.value.coverageFor in v.coverage(best.value.id) && best.value.coverageFor !in v.covered
              && forall c :: c in pool && c != best.value.id && !v.transmitted(c)
                             && (exists t :: t in v.coverage(c) && t !in v.covered) ==>
                   Before(v, best.value.id, c, high)
  {
    var best := Best(v, pool, high);
    assert IsBest(v, pool, high, best);
    forall c ensures Eligible(v, c) <==> !v.transmitted(c) && exists t :: t in v.coverage(c) && t !in v.covered {
      UniqueIsNew(v.coverage(c), v.covered);
      SomethingNew(v.coverage(c), v.covered);
    }
    if best.Some? {
      var b := best.value.id;
      UniqueIsNew(v.coverage(b), v.covered);
      FirstIsNew(v.coverage(b), v.covered);
      forall c | c in pool && c != b && Eligible(v, c) ensures Before(v, b, c, high) {
        assert Precedes(v, b, c, high);
        BetterIsBefore(v, b, c, high);
      }
    }
    hide Best, Before, Precedes, Eligible;
  }

  lemma {:induction false} FirstIsNew(targets: seq<u32>, covered: set<u32>)
    ensures var found := New(targets, covered); found != [] ==> found[0] in targets && found[0] !in covered
  {
    if targets != [] && targets[0] in covered { FirstIsNew(targets[1..], covered); }
  }

  /** The takes of a ranking: the reservations, then a rung for every router, then a late one for everybody else. */
  ghost predicate TakesOf(v: View, picks: seq<u32>, reserved: nat, takes: seq<Take>) {
    && |takes| == reserved + |picks|
    && forall i :: 0 <= i < |takes| ==>
         takes[i] == if i < reserved then Reserved else if v.router(picks[i - reserved]) then Rung else LateRung
  }

  /** Rank `k` behind the reservations, the position of that take, and the first new target. */
  ghost function RankedAs(v: View, me: u32, takes: seq<Take>, i: nat, slotTime: nat, half: nat): Option<Ranked> {
    if i < |takes| && Gain(v, me) != [] && PositionOf(takes, i, slotTime, half) >= 0 then
      Some(Ranked(i, PositionOf(takes, i, slotTime, half), Gain(v, me)[0]))
    else None
  }

  /** A node that is not picked has no plan. */
  lemma UnpickedHasNoPlan(v: View, pool: seq<u32>, reserved: nat, me: u32, slotTime: u32, half: u32, high: bool)
    requires me !in Pick(v, pool, high)
    ensures Plan(v, pool, reserved, me, slotTime, half, high).None?
  {
    hide Pick;
  }

  /** The plan of a node that is picked: its rank, its position by the formula, and its first new target. */
  lemma PlanByRule(
    v: View, pool: seq<u32>, reserved: nat, me: u32, slotTime: u32, half: u32, high: bool, k: nat, takes: seq<Take>)
    requires Distinct(pool) && Roomy(slotTime, half, reserved + |pool|)
    requires k < |Pick(v, pool, high)| && Pick(v, pool, high)[k] == me
    requires TakesOf(v, Pick(v, pool, high), reserved, takes)
    ensures Plan(v, pool, reserved, me, slotTime, half, high) == RankedAs(v, me, takes, reserved + k, slotTime, half)
    ensures RankedAs(v, me, takes, reserved + k, slotTime, half).Some?
  {
    hide *;
    var picks := Pick(v, pool, high);
    RoomForAll(slotTime, half, reserved + |pool|);
    TakesAreMany(v, picks, reserved, takes);
    PickedIsFound(v, pool, high, me, k);
    PositionPlanned(v, pool, reserved, slotTime, half, high, reserved + k, takes);
    RankGiven(v, picks, reserved, me, slotTime, half, k, takes);
    PlanIsIn(v, pool, reserved, me, slotTime, half, high);
  }

  lemma RoomForAll(slotTime: u32, half: u32, n: nat)
    requires Roomy(slotTime, half, n)
    ensures n <= 255
  {
  }

  lemma TakesAreMany(v: View, picks: seq<u32>, reserved: nat, takes: seq<Take>)
    requires TakesOf(v, picks, reserved, takes)
    ensures |takes| == reserved + |picks|
  {
  }

  lemma PlanIsIn(v: View, pool: seq<u32>, reserved: nat, me: u32, slotTime: u32, half: u32, high: bool)
    ensures Plan(v, pool, reserved, me, slotTime, half, high)
            == PlanIn(v, Pick(v, pool, high), reserved, me, slotTime, half)
  {
    hide Pick, PlanIn;
  }

  lemma RankGiven(v: View, order: seq<u32>, reserved: nat, me: u32, slotTime: u32, half: u32, k: nat, takes: seq<Take>)
    requires Find(order, me) == Some(k) && Eligible(v, me) && UniqueOf(v, me) == Gain(v, me) && reserved + k <= 255
    requires |takes| == reserved + |order|
    requires Positions(v, order, reserved, slotTime, half)[reserved + k]
             == PositionOf(takes, reserved + k, slotTime, half)
    ensures PlanIn(v, order, reserved, me, slotTime, half) == RankedAs(v, me, takes, reserved + k, slotTime, half)
    ensures RankedAs(v, me, takes, reserved + k, slotTime, half).Some?
  {
    hide Positions, PositionOf, Gain, Find;
  }

  lemma PickedIsFound(v: View, pool: seq<u32>, high: bool, me: u32, k: nat)
    requires Distinct(pool) && k < |Pick(v, pool, high)| && Pick(v, pool, high)[k] == me
    ensures Find(Pick(v, pool, high), me) == Some(k) && k < |pool|
    ensures Eligible(v, me) && UniqueOf(v, me) == Gain(v, me)
  {
    hide Pick, Before, Unique, New;
    PickLength(v, pool, high);
    PicksByRule(v, pool, high);
    FindPick(Pick(v, pool, high), me, k);
    PicksAreEligible(v, pool, high);
    UniqueIsNew(v.coverage(me), v.covered);
  }

  lemma PositionPlanned(
    v: View, pool: seq<u32>, reserved: nat, slotTime: u32, half: u32, high: bool, i: nat, takes: seq<Take>)
    requires Distinct(pool) && Roomy(slotTime, half, reserved + |pool|)
    requires TakesOf(v, Pick(v, pool, high), reserved, takes) && i < |takes|
    ensures Positions(v, Pick(v, pool, high), reserved, slotTime, half)[i] == PositionOf(takes, i, slotTime, half)
  {
    var picks := Pick(v, pool, high);
    hide Pick;
    assert takes == Takes(v, reserved, picks);
    hide Takes, TakesOf, LateLast, PositionOf, Roomy, Positions;
    PickLength(v, pool, high);
    TakesLateLast(v, pool, reserved, high);
    RoomyShrinks(slotTime, half, |takes|, reserved + |pool|);
    PositionsByFormula(takes, i, slotTime, half);
    PositionsAre(v, picks, reserved, slotTime, half);
    hide Assign, NewAllocator;
  }

  lemma PositionsAre(v: View, order: seq<u32>, reserved: nat, slotTime: u32, half: u32)
    ensures Positions(v, order, reserved, slotTime, half)
            == Assign(NewAllocator(slotTime, half), Takes(v, reserved, order))
  {
    hide Assign, NewAllocator, Takes;
  }

  lemma FindPick(picks: seq<u32>, me: u32, k: nat)
    requires k < |picks| && picks[k] == me && forall i, j :: 0 <= i < j < |picks| ==> picks[i] != picks[j]
    ensures Find(picks, me) == Some(k)
  {
  }
}
