/** One bucket of the limiter followed over timed runs: what it admits obeys the sliding bound. */
module BucketRuns {
  import opened Machine
  import opened Bucket
  import opened Limiter
  import opened LimiterRuns

  /** An operation and the unbounded instant it happens at. */
  datatype TimedOp = At(t: nat, op: Op)

  /** The clock never runs back, and every packet carries the clock's reading. */
  ghost predicate OnTime(ops: seq<TimedOp>, from: nat, until: nat) {
    && (forall i :: 0 <= i < |ops| ==> from <= ops[i].t < until)
    && (forall i, j :: 0 <= i < j < |ops| ==> ops[i].t <= ops[j].t)
    && (forall i :: 0 <= i < |ops| && ops[i].op.Receive? ==> ops[i].op.packet.now == Clock(ops[i].t))
  }

  /** How a bucket is found in the limiter, what an operation does to it, and how much passes because of it. */
  datatype Follow = Follow(
    present: Limiter -> bool,
    bucket: Limiter -> BucketState,
    touches: (Limiter, TimedOp) -> seq<Touch>,
    passes: (Limiter, TimedOp) -> nat)

  ghost function TouchedAll(b: BucketState, touches: seq<Touch>): BucketState
    decreases |touches|
  {
    if touches == [] then b else TouchedAll(Touched(b, touches[0]), touches[1..])
  }

  /** The bucket an operation's touches meet: the one that is there, or a new one opened by the operation. */
  ghost function Met(f: Follow, s: Limiter, t: nat): BucketState {
    if f.present(s) then f.bucket(s) else Fresh(Clock(t))
  }

  /**
   An operation that leaves the bucket there moves it by its touches only, and lets through no more than they admit;
   one that takes the bucket away lets nothing through.
   */
  ghost predicate StepFollowed(f: Follow, ceiling: u32, s: Limiter, x: TimedOp) {
    var touches, next := f.touches(s, x), Apply(s, x.op);
    && (f.present(next) ==>
          && f.bucket(next) == TouchedAll(Met(f, s, x.t), touches)
          && f.passes(s, x) <= AdmittedAmount(Met(f, s, x.t), touches))
    && (f.present(s) && !f.present(next) ==> f.passes(s, x) == 0)
    && forall i :: 0 <= i < |touches| ==>
         touches[i].t == x.t && (touches[i].Dose? ==> 0 < touches[i].trip <= ceiling)
  }

  ghost predicate Followed(f: Follow, ceiling: u32) {
    forall s: Limiter, x: TimedOp ::
      (Inv(s) && (x.op.Receive? ==> x.op.packet.now == Clock(x.t))) ==> StepFollowed(f, ceiling, s, x)
  }

  /** How much passes over a run. */
  ghost function Passing(f: Follow, s: Limiter, ops: seq<TimedOp>): nat
    decreases |ops|
  {
    if ops == [] then 0 else f.passes(s, ops[0]) + Passing(f, Apply(s, ops[0].op), ops[1..])
  }

  /** How often the bucket comes into being. */
  ghost function Creations(f: Follow, s: Limiter, ops: seq<TimedOp>): nat
    decreases |ops|
  {
    if ops == [] then 0
    else
      var next := Apply(s, ops[0].op);
      (if !f.present(s) && f.present(next) then 1 else 0) + Creations(f, next, ops[1..])
  }

  /** How much passes although there is no bucket afterwards either. */
  ghost function Unrecorded(f: Follow, s: Limiter, ops: seq<TimedOp>): nat
    decreases |ops|
  {
    if ops == [] then 0
    else
      var next := Apply(s, ops[0].op);
      (if f.present(next) then 0 else f.passes(s, ops[0])) + Unrecorded(f, next, ops[1..])
  }

  /** The bucket is there before the run and after each of its operations. */
  ghost predicate Stays(f: Follow, s: Limiter, ops: seq<TimedOp>)
    decreases |ops|
  {
    f.present(s) && (ops != [] ==> Stays(f, Apply(s, ops[0].op), ops[1..]))
  }

  /** The touches of a run up to the operation that takes the bucket away. */
  ghost function RunTouches(f: Follow, s: Limiter, ops: seq<TimedOp>): seq<Touch>
    decreases |ops|
  {
    if ops == [] then []
    else
      var next := Apply(s, ops[0].op);
      if f.present(next) then f.touches(s, ops[0]) + RunTouches(f, next, ops[1..]) else []
  }

  lemma OneTouch(b: BucketState, x: Touch)
    ensures TouchedAll(b, [x]) == Touched(b, x) && AdmittedAmount(b, [x]) == AdmittedOf(b, x)
    ensures TouchedAll(b, []) == b && AdmittedAmount(b, []) == 0
  {
    assert [x][1..] == [];
  }

  lemma {:induction false} AmountAppend(b: BucketState, x: seq<Touch>, y: seq<Touch>)
    ensures AdmittedAmount(b, x + y) == AdmittedAmount(b, x) + AdmittedAmount(TouchedAll(b, x), y)
    decreases |x|
  {
    if x == [] {
      assert x + y == y;
    } else {
      assert (x + y)[0] == x[0] && (x + y)[1..] == x[1..] + y;
      AmountAppend(Touched(b, x[0]), x[1..], y);
    }
  }

  lemma CappedAppend(x: seq<Touch>, y: seq<Touch>, ceiling: u32, t: nat, from: nat, until: nat)
    requires from <= t < until && Capped(y, ceiling, t, until)
    requires forall i :: 0 <= i < |x| ==> x[i].t == t && (x[i].Dose? ==> 0 < x[i].trip <= ceiling)
    ensures Capped(x + y, ceiling, from, until)
  {
  }

  lemma {:induction false} TouchesCapped(f: Follow, ceiling: u32, s: Limiter, ops: seq<TimedOp>, from: nat, until: nat)
    requires Followed(f, ceiling) && Inv(s) && OnTime(ops, from, until)
    ensures Capped(RunTouches(f, s, ops), ceiling, from, until)
    decreases |ops|
  {
    if ops == [] {
    } else {
      var x, rest := ops[0], ops[1..];
      var next := Apply(s, x.op);
      ApplyKept(s, x.op);
      assert StepFollowed(f, ceiling, s, x);
      assert OnTime(rest, x.t, until) && from <= x.t < until;
      hide Apply, Inv, OnTime, Followed;
      TouchesCapped(f, ceiling, next, rest, x.t, until);
      CappedAppend(f.touches(s, x), RunTouches(f, next, rest), ceiling, x.t, from, until);
    }
  }

  /** A bucket that comes into being at `t` has one window's budget left until `from + WINDOW_MS`. */
  lemma NewBucketBound(touches: seq<Touch>, ceiling: u32, t: nat, from: nat)
    requires ceiling > 0 && from <= t < from + WINDOW_MS && Capped(touches, ceiling, t, from + WINDOW_MS)
    ensures AdmittedAmount(Fresh(Clock(t)), touches) <= ceiling - 1
  {
    AllowanceBound(Fresh(Clock(t)), touches, ceiling, t, from);
  }

  /** What the bucket at hand still admits, if there is one. */
  ghost function Credit(f: Follow, s: Limiter, ops: seq<TimedOp>): nat {
    if f.present(s) then AdmittedAmount(f.bucket(s), RunTouches(f, s, ops)) else 0
  }

  /** An operation lets through what it takes from the credit, or creates a bucket, or goes unrecorded. */
  lemma CreditStep(f: Follow, ceiling: u32, s: Limiter, ops: seq<TimedOp>, from: nat)
    requires ops != [] && ceiling > 0 && StepFollowed(f, ceiling, s, ops[0])
    requires from <= ops[0].t < from + WINDOW_MS
    requires Capped(RunTouches(f, Apply(s, ops[0].op), ops[1..]), ceiling, ops[0].t, from + WINDOW_MS)
    ensures var next := Apply(s, ops[0].op);
            f.passes(s, ops[0]) + Credit(f, next, ops[1..])
            <= (if !f.present(s) && f.present(next) then ceiling - 1 else Credit(f, s, ops))
               + (if f.present(next) then 0 else f.passes(s, ops[0]))
  {
    var x := ops[0];
    var next := Apply(s, x.op);
    hide Apply;
    if f.present(next) {
      var touches, later := f.touches(s, x), RunTouches(f, next, ops[1..]);
      AmountAppend(Met(f, s, x.t), touches, later);
      if !f.present(s) {
        CappedAppend(touches, later, ceiling, x.t, x.t, from + WINDOW_MS);
        NewBucketBound(touches + later, ceiling, x.t, from);
      }
      hide AdmittedAmount, TouchedAll, Capped;
    }
  }

  /** That many full budgets. */
  ghost function Budgets(ceiling: u32, n: nat): int { (ceiling - 1) * n }

  lemma OneMore(ceiling: u32, n: nat)
    ensures Budgets(ceiling, 0) == 0 && Budgets(ceiling, n + 1) == Budgets(ceiling, n) + ceiling - 1
  {
  }

  /** The first operation of a run, and the rest. */
  lemma AccountUnfolds(f: Follow, s: Limiter, ops: seq<TimedOp>)
    requires ops != []
    ensures var x, next := ops[0], Apply(s, ops[0].op);
            && Passing(f, s, ops) == f.passes(s, x) + Passing(f, next, ops[1..])
            && Creations(f, s, ops)
               == (if !f.present(s) && f.present(next) then 1 else 0) + Creations(f, next, ops[1..])
            && Unrecorded(f, s, ops)
               == (if f.present(next) then 0 else f.passes(s, x)) + Unrecorded(f, next, ops[1..])
  {
    hide Apply;
  }

  lemma {:induction false} PassingByAccount(f: Follow, ceiling: u32, s: Limiter, ops: seq<TimedOp>, at: nat, from: nat)
    requires ceiling > 0 && Followed(f, ceiling) && Inv(s)
    requires from <= at && OnTime(ops, at, from + WINDOW_MS)
    ensures Passing(f, s, ops) <= Credit(f, s, ops) + Budgets(ceiling, Creations(f, s, ops)) + Unrecorded(f, s, ops)
    decreases |ops|
  {
    if ops == [] {
      OneMore(ceiling, 0);
    } else {
      var x, rest := ops[0], ops[1..];
      var next, until := Apply(s, x.op), from + WINDOW_MS;
      ApplyKept(s, x.op);
      assert StepFollowed(f, ceiling, s, x);
      assert OnTime(rest, x.t, until) && at <= x.t < until;
      hide Apply, Inv, OnTime, Followed, StepFollowed, Capped, Credit, Budgets, Passing, Creations, Unrecorded;
      PassingByAccount(f, ceiling, next, rest, x.t, from);
      TouchesCapped(f, ceiling, next, rest, x.t, until);
      CreditStep(f, ceiling, s, ops, from);
      OneMore(ceiling, Creations(f, next, rest));
      AccountUnfolds(f, s, ops);
    }
  }

  lemma CreditBound(f: Follow, ceiling: u32, s: Limiter, ops: seq<TimedOp>, from: nat)
    requires ceiling > 0 && Followed(f, ceiling) && Inv(s) && (f.present(s) ==> Sound(f.bucket(s), ceiling))
    requires OnTime(ops, from, from + WINDOW_MS)
    ensures Credit(f, s, ops) <= Budgets(ceiling, if f.present(s) then 2 else 0)
  {
    if f.present(s) {
      TouchesCapped(f, ceiling, s, ops, from, from + WINDOW_MS);
      WeightedSlidingBound(f.bucket(s), RunTouches(f, s, ops), ceiling, from);
    }
    hide Followed, Inv, OnTime, Capped, Sound, RunTouches, AdmittedAmount;
  }

  /**
   In any interval one window long, less than two full budgets pass if the bucket is there at its start, less than one
   more for each time it comes into being, and what passes while no entry can be had.
   */
  lemma AccountBound(f: Follow, ceiling: u32, s: Limiter, ops: seq<TimedOp>, from: nat)
    requires ceiling > 0 && Followed(f, ceiling) && Inv(s) && (f.present(s) ==> Sound(f.bucket(s), ceiling))
    requires OnTime(ops, from, from + WINDOW_MS)
    ensures Passing(f, s, ops)
            <= (ceiling - 1) * ((if f.present(s) then 2 else 0) + Creations(f, s, ops)) + Unrecorded(f, s, ops)
  {
    var k, n := if f.present(s) then 2 else 0, Creations(f, s, ops);
    hide Followed, Inv, OnTime, Sound, Passing, Creations, Unrecorded, Credit;
    PassingByAccount(f, ceiling, s, ops, from, from);
    CreditBound(f, ceiling, s, ops, from);
    BudgetsAdd(ceiling, k, n);
    hide Budgets;
  }

  lemma BudgetsAdd(ceiling: u32, k: nat, n: nat)
    ensures Budgets(ceiling, k) + Budgets(ceiling, n) == (ceiling - 1) * (k + n)
  {
  }

  /** A bucket that stays never comes into being, and everything that passes is recorded. */
  lemma {:induction false} StayingIsRecorded(f: Follow, s: Limiter, ops: seq<TimedOp>)
    requires Stays(f, s, ops)
    ensures Creations(f, s, ops) == 0 && Unrecorded(f, s, ops) == 0
    decreases |ops|
  {
    if ops != [] {
      hide Apply;
      assert Stays(f, Apply(s, ops[0].op), ops[1..]);
      StayingIsRecorded(f, Apply(s, ops[0].op), ops[1..]);
    }
  }

  /** In any interval one window long, less than two full budgets pass while the bucket stays. */
  lemma FollowedBound(f: Follow, ceiling: u32, s: Limiter, ops: seq<TimedOp>, from: nat)
    requires ceiling > 0 && Followed(f, ceiling) && Inv(s) && Stays(f, s, ops) && Sound(f.bucket(s), ceiling)
    requires OnTime(ops, from, from + WINDOW_MS)
    ensures Passing(f, s, ops) <= 2 * (ceiling - 1)
  {
    AccountBound(f, ceiling, s, ops, from);
    StayingIsRecorded(f, s, ops);
    hide Followed, Inv, OnTime, Sound, Passing, Creations, Unrecorded;
  }
}
