/** A run from boot in which as many packets of young originators pass in 90 seconds as the flood bound allows. */
module FloodRun {
  import opened Machine
  import opened Bucket
  import opened Limiter
  import opened LimiterRuns
  import opened BucketRuns
  import opened DropDecision
  import opened FloodBound
  import opened Budgets
  import opened Establishment
  import ForgettingRun

  const STRANGERS: nat := 94

  /** Half of the strangers speak in the last millisecond of a window, half in the first of the next. */
  function Instant(k: nat): (t: u32)
    ensures 1_889_999 <= t <= 1_890_000
  {
    if k < 48 then 1_889_999 else 1_890_000
  }

  /** The shared bucket after the strangers up to `k`. */
  function FilledBy(k: nat): BucketState
    requires k <= STRANGERS
  {
    if k == 0 then Fresh(0)
    else if k < 48 then BucketState(1_800_000, k, false, YOUNG_CLEAR)
    else BucketState(1_890_000, k - 47, false, YOUNG_CLEAR)
  }

  lemma StrangerFills(k: nat)
    requires 0 < k <= STRANGERS
    ensures var c := FilledBy(k - 1).Charge(YOUNG_TRIP, YOUNG_CLEAR, 1, Instant(k));
            c.bucket == FilledBy(k) && !c.refused
  {
  }

  function Word(k: nat): Packet
    requires k <= STRANGERS
  {
    ForgettingRun.Text(k, Instant(k))
  }

  /** One text each of the strangers `k` to 94. */
  function Flood(k: nat, prox: u32 -> Proximity): seq<TimedOp>
    requires k <= STRANGERS + 1
    decreases STRANGERS + 1 - k
  {
    if k == STRANGERS + 1 then []
    else [At(Instant(k), Receive(Word(k), prox))] + Flood(k + 1, prox)
  }

  // ---- What one stranger's text does ----

  /** Nobody from `k` on is known. */
  ghost predicate Strange(a: Admission, k: nat) {
    && (forall i :: 0 <= i < |a.young| ==> a.young[i].id < k)
    && (forall x :: x in a.alumni ==> x < k)
  }

  ghost predicate Warm(a: Admission) { a.warmed || (a.bootKnown && a.boot == 0) }

  lemma NotingAddsOne(a: Admission, id: u32, now: u32)
    requires Strange(a, id) && Warm(a)
    ensures Strange(NoteOriginator(a, id, now), id + 1) && Warm(NoteOriginator(a, id, now))
  {
    hide SwapRemove, ExpireIfOld, FirstAged, YoungIds;
    StrangerIsNotExpired(a, id, now);
    var w := LatchWarm(a, now);
    var aged := FirstAged(w.young, now);
    if aged.Some? { RemovedBelow(w.young, aged.value, id); }
  }

  lemma StrangerIsNotExpired(a: Admission, id: u32, now: u32)
    requires Strange(a, id)
    ensures ExpireIfOld(a, id, now) == a && id !in YoungIds(a.young) && id !in a.alumni
  {
    forall i | 0 <= i < |a.young| ensures YoungIds(a.young)[i] < id {
      assert YoungIds(a.young)[i] == a.young[i].id;
    }
  }

  lemma RemovedBelow(young: seq<Sighting>, i: nat, k: nat)
    requires i < |young| && forall j :: 0 <= j < |young| ==> young[j].id < k
    ensures forall j :: 0 <= j < |SwapRemove(young, i)| ==> SwapRemove(young, i)[j].id < k
  {
  }

  lemma LookingAddsNobody(a: Admission, b: Admission, k: nat, now: u32)
    requires Looked(a, b, now) && Strange(a, k) && Warm(a)
    ensures Strange(b, k) && Warm(b)
  {
  }

  lemma PassAddsOne(table: seq<Originator>, p: Packet, prox: u32 -> Proximity, k: nat)
    requires OriginatorsOk(table) && p.from == k
    requires forall i :: 0 <= i < |table| ==> table[i].id < k
    ensures var after := OriginatorPass(table, p, prox).table; forall i :: 0 <= i < |after| ==> after[i].id < k + 1
  {
    var slot := OriginatorSlot(table, p.from, p.now, prox);
    SlotKeepsIds(OriginatorIds(table), p.from, OriginatorRanks(table, p.now, prox), MAX_ORIGINATORS);
    if slot.Some? {
      PassedEntry(table, p, prox, slot.value);
      hide OriginatorPass;
      var after := OriginatorPass(table, p, prox).table;
      assert forall i :: 0 <= i < |after| ==> OriginatorIds(after)[i] == after[i].id;
    } else {
      NoSlotNoEntry(table, p, prox);
    }
  }

  /** Warmed up, with no originator from `k` on known and the shared bucket filled by those before. */
  ghost predicate Awaits(s: Limiter, k: nat) {
    && Inv(s) && s.enabled && s.node == 100 && Warm(s.admission) && Strange(s.admission, k)
    && (forall i :: 0 <= i < |s.originators| ==> s.originators[i].id < k)
    && 0 < k <= STRANGERS + 1 && s.youngBucket == FilledBy(k - 1)
  }

  lemma StrangerIsYoung(s: Limiter, k: nat)
    requires Awaits(s, k) && k <= STRANGERS
    ensures WarmedUp(s.admission, Instant(k)) && Newcomer(s.admission, k, Instant(k))
    ensures FromYoung(s, Word(k))
  {
    var a, now := s.admission, Instant(k);
    forall i | 0 <= i < |a.young| ensures YoungIds(a.young)[i] != k {
      assert YoungIds(a.young)[i] == a.young[i].id;
    }
    var b := NoteBoot(a, now);
    assert AdmissionOk(b) && WarmedUp(b, now) && Newcomer(b, k, now);
    YoungOnceNoted(b, k, now);
    hide NoteOriginator, IsYoung;
  }

  lemma StrangerPasses(s: Limiter, k: nat, prox: u32 -> Proximity)
    requires Awaits(s, k) && k <= STRANGERS
    ensures var p := Word(k);
            YoungPasses(s, p, prox) && ShouldDrop(s, p, prox).state.youngBucket == FilledBy(k)
  {
    var p := Word(k);
    StrangerIsYoung(s, k);
    StrangerFills(k);
    ChargeRefused(s.youngBucket, YOUNG_TRIP, YOUNG_CLEAR, 1, p.now);
    assert !OriginatorStops(s, p) by {
      forall i | 0 <= i < |s.originators| ensures OriginatorIds(s.originators)[i] != k {
        assert OriginatorIds(s.originators)[i] == s.originators[i].id;
      }
    }
    assert !YoungStops(s, p) && !DestStops(s, p) && !Exempt(s, p);
    DropsExactly(s, p, prox);
    YoungBucketStep(s, p, prox);
    hide ShouldDrop, FromYoung, ReachesSender;
  }

  lemma NextAwaits(s: Limiter, k: nat, prox: u32 -> Proximity)
    requires Awaits(s, k) && k <= STRANGERS
    ensures Awaits(ShouldDrop(s, Word(k), prox).state, k + 1)
  {
    var p := Word(k);
    var next := ShouldDrop(s, p, prox).state;
    var b := NoteBoot(s.admission, p.now);
    StrangerPasses(s, k, prox);
    assert next == Apply(s, Receive(p, prox));
    ApplyKept(s, Receive(p, prox));
    ForgettingRun.TextNoted(s, k, p.now, prox);
    OriginatorStep(s, p, prox);
    PassAddsOne(s.originators, p, prox, k);
    assert Strange(b, k) && Warm(b);
    NotingAddsOne(b, k, p.now);
    hide NoteOriginator, ShouldDrop, NoteBoot, Looked, OriginatorPass, Inv, FilledBy;
    LookingAddsNobody(NoteOriginator(b, k, p.now), next.admission, k + 1, p.now);
  }

  lemma {:induction false} AllStrangersPass(s: Limiter, k: nat, prox: u32 -> Proximity)
    requires Awaits(s, k)
    ensures Passed(s, Flood(k, prox)) == STRANGERS + 1 - k
    decreases STRANGERS + 1 - k
  {
    if k <= STRANGERS {
      StrangerPasses(s, k, prox);
      NextAwaits(s, k, prox);
      var x := At(Instant(k), Receive(Word(k), prox));
      assert Flood(k, prox)[0] == x && Flood(k, prox)[1..] == Flood(k + 1, prox);
      assert PassesYoung(s, x.op);
      hide ShouldDrop, Awaits, PassesYoung;
      AllStrangersPass(Apply(s, x.op), k + 1, prox);
    }
  }

  lemma {:induction false} FloodOnTime(k: nat, prox: u32 -> Proximity)
    requires k <= STRANGERS + 1
    ensures OnTime(Flood(k, prox), Instant(k), 1_890_001)
    decreases STRANGERS + 1 - k
  {
    if k <= STRANGERS {
      FloodOnTime(k + 1, prox);
    }
  }

  /**
   The flood bound is attained: once the warm-up is over, 94 strangers with one text each pass within two
   milliseconds, wherever the graph places them.
   */
  lemma FloodBoundIsMet(prox: u32 -> Proximity)
    ensures STRANGERS == 2 * (YOUNG_TRIP - 1)
    ensures OnTime(Flood(1, prox), 1_889_999, 1_889_999 + WINDOW_MS)
    ensures Passed(Run(Initial(100), [SetBoot(0)]), Flood(1, prox)) == STRANGERS
  {
    var s := Run(Initial(100), [SetBoot(0)]);
    Reachable(100, [SetBoot(0)]);
    assert [SetBoot(0)][..0] == [];
    assert s == Apply(Initial(100), SetBoot(0));
    assert Awaits(s, 1);
    hide Run, Awaits, Flood, Initial;
    AllStrangersPass(s, 1, prox);
    FloodOnTime(1, prox);
  }
}
