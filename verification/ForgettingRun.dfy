/** A run from boot in which the limiter forgets an established node. */
module ForgettingRun {
  import opened Machine
  import opened Bucket
  import opened Limiter
  import opened LimiterRuns
  import opened Establishment

  /** A text to everybody. */
  function Text(from: u32, now: u32): Packet {
    Packet(from, NODENUM_BROADCAST, Some(1), now, false, None, 100, 0.0, true, true)
  }

  /** Looking changes nothing where every node is active or known to have graduated. */
  lemma LookingAgain(a: Admission, b: Admission, now: u32)
    requires Looked(a, b, now)
    requires forall i :: 0 <= i < |a.young| ==> a.young[i].graduated || a.young[i].Active(now)
    ensures b == a.(warmed := WarmedUp(a, now))
  {
    forall i | 0 <= i < |a.young| ensures b.young[i] == a.young[i] {
      assert a.young[i].Latch(now) == a.young[i];
    }
    assert b.young == a.young;
  }

  /** What a text does to the lists: its sender is noted, and some young nodes are looked at. */
  lemma TextNoted(s: Limiter, from: u32, now: u32, prox: u32 -> Proximity)
    requires s.enabled && from != 0 && from != s.node && s.node != NODENUM_BROADCAST
    ensures var t := ShouldDrop(s, Text(from, now), prox).state;
            && t.enabled && t.node == s.node
            && Looked(NoteOriginator(NoteBoot(s.admission, now), from, now), t.admission, now)
  {
    var p := Text(from, now);
    var booted := s.(lastEvent := None, admission := NoteBoot(s.admission, now));
    var noted := booted.(admission := NoteOriginator(booted.admission, from, now));
    hide NoteOriginator, OriginatorPass, IsYoung, LatchYoung, MaybeAnnounce, BucketState.Charge, NoteBoot, Looked;
    var o := ChargeOriginator(noted, p, prox).state;
    assert ShouldDrop(s, p, prox).state == ChargeYoung(o, p).state;
    YoungLooked(o, p);
    YoungKeepsSwitch(o, p);
  }

  lemma YoungKeepsSwitch(s: Limiter, p: Packet)
    ensures ChargeYoung(s, p).state.enabled == s.enabled && ChargeYoung(s, p).state.node == s.node
  {
    hide IsYoung, LatchYoung, BucketState.Charge;
  }

  // ---- States with known lists ----

  ghost predicate At(s: Limiter, a: Admission) { s.enabled && s.node == 100 && s.admission == a }

  /** Looking at these nodes at this time changes nothing. */
  ghost predicate Settled(a: Admission, now: u32) {
    forall i :: 0 <= i < |a.young| ==> a.young[i].graduated || a.young[i].Active(now)
  }

  // ---- Runs of texts ----

  /** Who is heard, and when. */
  datatype Talk = Talk(id: u32, now: u32)

  /** The lists after the senders were noted, one after the other. */
  function Noted(a: Admission, talks: seq<Talk>): Admission {
    if talks == [] then a
    else
      var n := |talks| - 1;
      NoteOriginator(NoteBoot(Noted(a, talks[..n]), talks[n].now), talks[n].id, talks[n].now)
  }

  /** No text comes from the node itself, and the lists are settled after each. */
  ghost predicate Quiet(a: Admission, talks: seq<Talk>) {
    talks != [] ==>
      var n := |talks| - 1;
      && talks[n].id !in {0, 100}
      && Settled(Noted(a, talks), talks[n].now) && Noted(a, talks).warmed == WarmedUp(Noted(a, talks), talks[n].now)
      && Quiet(a, talks[..n])
  }

  function Texts(talks: seq<Talk>, prox: u32 -> Proximity): seq<Op> {
    if talks == [] then []
    else
      var n := |talks| - 1;
      Texts(talks[..n], prox) + [Receive(Text(talks[n].id, talks[n].now), prox)]
  }

  lemma TextStep(s: Limiter, a: Admission, n: Admission, id: u32, now: u32, prox: u32 -> Proximity)
    requires At(s, a) && id !in {0, 100}
    requires n == NoteOriginator(NoteBoot(a, now), id, now) && Settled(n, now) && n.warmed == WarmedUp(n, now)
    ensures At(Apply(s, Receive(Text(id, now), prox)), n)
  {
    hide NoteOriginator, NoteBoot, ShouldDrop;
    TextNoted(s, id, now, prox);
    LookingAgain(n, ShouldDrop(s, Text(id, now), prox).state.admission, now);
  }

  lemma {:induction false} RunIsNoted(s: Limiter, a: Admission, talks: seq<Talk>, prox: u32 -> Proximity)
    requires At(s, a) && Quiet(a, talks)
    ensures At(Run(s, Texts(talks, prox)), Noted(a, talks))
  {
    if talks != [] {
      var n := |talks| - 1;
      hide At, Settled, NoteOriginator, NoteBoot, Apply, WarmedUp, Text;
      RunIsNoted(s, a, talks[..n], prox);
      var ops := Texts(talks[..n], prox);
      var op := Receive(Text(talks[n].id, talks[n].now), prox);
      assert (ops + [op])[..|ops|] == ops;
      TextStep(Run(s, ops), Noted(a, talks[..n]), Noted(a, talks), talks[n].id, talks[n].now, prox);
    }
  }

  lemma {:induction false} NotedAppend(a: Admission, x: seq<Talk>, y: seq<Talk>)
    ensures Noted(a, x + y) == Noted(Noted(a, x), y)
    ensures Quiet(a, x) && Quiet(Noted(a, x), y) ==> Quiet(a, x + y)
    decreases |y|
  {
    hide Settled, NoteOriginator, NoteBoot, WarmedUp;
    if y == [] {
      assert x + y == x;
    } else {
      var n := |y| - 1;
      NotedAppend(a, x, y[..n]);
      assert (x + y)[..|x| + n] == x + y[..n] && (x + y)[|x| + n] == y[n];
    }
  }

  // ---- The warm-up ----

  function Alumni(n: nat): seq<u32>
    requires n <= MAX_ALUMNI
  {
    seq(n, i requires 0 <= i < n => 1_000 + i)
  }

  function WarmingUp(n: nat): Admission
    requires n <= MAX_ALUMNI
  {
    Admission([], Alumni(n), 0, n > 0, false)
  }

  /** Boot: 128 nodes are heard during the warm-up. */
  function Elders(n: nat): seq<Talk>
    requires n <= MAX_ALUMNI
  {
    if n == 0 then [] else Elders(n - 1) + [Talk(1_000 + n - 1, 0)]
  }

  lemma WarmUpNote(n: nat)
    requires n < MAX_ALUMNI
    ensures NoteOriginator(NoteBoot(WarmingUp(n), 0), 1_000 + n, 0) == WarmingUp(n + 1)
    ensures Settled(WarmingUp(n + 1), 0) && !WarmedUp(WarmingUp(n + 1), 0) && !WarmingUp(n + 1).warmed
  {
    assert Alumni(n + 1) == Alumni(n) + [1_000 + n];
    assert Find(YoungIds([]), 1_000 + n) == None;
  }

  lemma {:induction false} EldersFill(n: nat)
    requires n <= MAX_ALUMNI
    ensures Noted(WarmingUp(0), Elders(n)) == WarmingUp(n) && Quiet(WarmingUp(0), Elders(n))
  {
    if n == 0 {
    } else {
      EldersFill(n - 1);
      ElderStep(n - 1, Elders(n - 1), 1_000 + n - 1);
    }
  }

  lemma ElderStep(n: nat, talks: seq<Talk>, id: u32)
    requires n < MAX_ALUMNI && id == 1_000 + n
    requires Noted(WarmingUp(0), talks) == WarmingUp(n) && Quiet(WarmingUp(0), talks)
    ensures var more := talks + [Talk(id, 0)];
            Noted(WarmingUp(0), more) == WarmingUp(n + 1) && Quiet(WarmingUp(0), more)
  {
    WarmUpNote(n);
    hide NoteOriginator, NoteBoot, WarmingUp, Settled, WarmedUp, Alumni;
    assert (talks + [Talk(id, 0)])[..|talks|] == talks;
  }

  // ---- After the warm-up ----

  const HALF_HOUR: u32 := 1_800_000
  const HOUR: u32 := 3_600_000

  /** Node 1, parked or not, and the first newcomers. */
  function Full(graduated: bool, n: nat): Admission
    requires n < MAX_YOUNG
  {
    Admission([Sighting(1, HALF_HOUR, graduated)] + seq(n, i requires 0 <= i < n => Sighting(2 + i, HOUR, false)),
              Alumni(MAX_ALUMNI), 0, true, true)
  }

  lemma FullIds(graduated: bool, n: nat)
    requires n < MAX_YOUNG
    ensures var ids := YoungIds(Full(graduated, n).young); |ids| == n + 1 && forall i :: 0 <= i <= n ==> ids[i] == i + 1
  {
  }

  /** Node 1 is heard once the warm-up is over. */
  lemma FirstNote()
    ensures NoteOriginator(NoteBoot(WarmingUp(MAX_ALUMNI), HALF_HOUR), 1, HALF_HOUR) == Full(false, 0)
  {
    var a := WarmingUp(MAX_ALUMNI);
    assert 1 !in a.alumni;
    hide Alumni;
    assert Full(false, 0).young == [Sighting(1, HALF_HOUR, false)];
    assert YoungIds(a.young) == [];
  }

  /** It is heard again half an hour later; there is no room for it among the alumni. */
  lemma SecondNote()
    ensures NoteOriginator(NoteBoot(Full(false, 0), HOUR), 1, HOUR) == Full(true, 0)
  {
    var a := Full(false, 0);
    FullIds(false, 0);
    FullIds(true, 0);
    assert 1 !in a.alumni && |a.alumni| == MAX_ALUMNI;
    hide Alumni;
    FindIs(YoungIds(a.young), 1, 0);
    assert a.young[0 := a.young[0].Latch(HOUR)] == Full(true, 0).young;
    assert ExpireIfOld(a, 1, HOUR) == Full(true, 0);
    assert YoungIds(Full(true, 0).young)[0] == 1;
  }

  lemma NewcomerNote(n: nat)
    requires n + 1 < MAX_YOUNG
    ensures NoteOriginator(NoteBoot(Full(true, n), HOUR), 2 + n, HOUR) == Full(true, n + 1)
    ensures Settled(Full(true, n + 1), HOUR) && WarmedUp(Full(true, n + 1), HOUR) && Full(true, n + 1).warmed
  {
    var a := Full(true, n);
    FullIds(true, n);
    assert 2 + n !in a.alumni;
    hide Alumni;
    assert Full(true, n + 1).young == a.young + [Sighting(2 + n, HOUR, false)];
    assert ExpireIfOld(a, 2 + n, HOUR) == a;
  }

  /** Newcomers, an hour after boot. */
  function Newcomers(n: nat): seq<Talk>
    requires n < MAX_YOUNG
  {
    if n == 0 then [] else Newcomers(n - 1) + [Talk(2 + n - 1, HOUR)]
  }

  lemma {:induction false} NewcomersFill(n: nat)
    requires n < MAX_YOUNG
    ensures Noted(Full(true, 0), Newcomers(n)) == Full(true, n) && Quiet(Full(true, 0), Newcomers(n))
  {
    if n == 0 {
    } else {
      NewcomersFill(n - 1);
      NewcomerStep(n - 1, Newcomers(n - 1), 2 + n - 1);
    }
  }

  lemma NewcomerStep(n: nat, talks: seq<Talk>, id: u32)
    requires n + 1 < MAX_YOUNG && id == 2 + n
    requires Noted(Full(true, 0), talks) == Full(true, n) && Quiet(Full(true, 0), talks)
    ensures var more := talks + [Talk(id, HOUR)];
            Noted(Full(true, 0), more) == Full(true, n + 1) && Quiet(Full(true, 0), more)
  {
    NewcomerNote(n);
    hide NoteOriginator, NoteBoot, Full, Settled, WarmedUp;
    assert (talks + [Talk(id, HOUR)])[..|talks|] == talks;
  }

  /** Node 1 is heard once the warm-up is over, and again half an hour later. */
  lemma NodeOneParks()
    ensures var heard := [Talk(1, HALF_HOUR), Talk(1, HOUR)];
            Noted(WarmingUp(MAX_ALUMNI), heard) == Full(true, 0) && Quiet(WarmingUp(MAX_ALUMNI), heard)
  {
    var first, heard := [Talk(1, HALF_HOUR)], [Talk(1, HALF_HOUR), Talk(1, HOUR)];
    FirstNote();
    SecondNote();
    assert Settled(Full(false, 0), HALF_HOUR) && Settled(Full(true, 0), HOUR);
    assert heard[..1] == first && first[..0] == [];
    hide NoteOriginator, NoteBoot, Alumni;
    assert Noted(WarmingUp(MAX_ALUMNI), first) == Full(false, 0);
    assert Noted(WarmingUp(MAX_ALUMNI), heard) == Full(true, 0);
    assert Quiet(WarmingUp(MAX_ALUMNI), []) && Quiet(WarmingUp(MAX_ALUMNI), first);
  }

  function History(): seq<Talk> { Elders(MAX_ALUMNI) + [Talk(1, HALF_HOUR), Talk(1, HOUR)] + Newcomers(31) }

  lemma HistoryFills()
    ensures Noted(WarmingUp(0), History()) == Full(true, 31) && Quiet(WarmingUp(0), History())
  {
    EldersFill(MAX_ALUMNI);
    NodeOneParks();
    NewcomersFill(31);
    hide Noted, Quiet, Elders, Newcomers, Full, WarmingUp;
    var heard := [Talk(1, HALF_HOUR), Talk(1, HOUR)];
    NotedAppend(WarmingUp(0), Elders(MAX_ALUMNI), heard);
    NotedAppend(WarmingUp(0), Elders(MAX_ALUMNI) + heard, Newcomers(31));
  }

  // ---- The stranger ----

  /** Both lists are full, and node 1 is the first parked node. */
  lemma FullMayForget()
    ensures Established(Full(true, 31), 1) && Forgets(Full(true, 31), 500, 1, HOUR)
    ensures ExpireIfOld(Full(true, 31), 500, HOUR) == Full(true, 31)
  {
    var a := Full(true, 31);
    FullIds(true, 31);
    assert 500 !in a.alumni && 500 !in YoungIds(a.young) && |a.alumni| == MAX_ALUMNI;
    hide Alumni;
    assert a.young[0] == Sighting(1, HALF_HOUR, true);
    assert FirstAged(a.young, HOUR) == Some(0);
  }

  lemma StrangerInstead()
    ensures NoteOriginator(Full(true, 31), 500, HOUR).young
            == SwapRemove(Full(true, 31).young, 0) + [Sighting(500, HOUR, false)]
    ensures NoteOriginator(Full(true, 31), 500, HOUR).warmed && NoteBoot(Full(true, 31), HOUR) == Full(true, 31)
  {
    var a := Full(true, 31);
    FullMayForget();
    assert |a.young| == MAX_YOUNG && a.young[0] == Sighting(1, HALF_HOUR, true);
    assert FirstAged(a.young, HOUR) == Some(0);
    hide Full, Established, ExpireIfOld;
  }

  lemma OthersAreActive()
    ensures var young := Full(true, 31).young;
            && (forall i :: 0 < i < |young| ==> young[i].Active(HOUR)) && young[0].id == 1
            && (forall i :: 0 <= i < |young| && young[i].id != 1 ==> young[i].Active(HOUR))
            && forall i :: 0 <= i < |SwapRemove(young, 0) + [Sighting(500, HOUR, false)]| ==>
                 (SwapRemove(young, 0) + [Sighting(500, HOUR, false)])[i].Active(HOUR)
  {
  }

  /** A stranger takes its place. */
  lemma StrangerForgets(n: Admission)
    requires n == NoteOriginator(NoteBoot(Full(true, 31), HOUR), 500, HOUR) && AdmissionOk(Full(true, 31))
    ensures Established(Full(true, 31), 1) && !Established(n, 1) && IsYoung(n, 1, HOUR)
    ensures Settled(n, HOUR) && n.warmed
  {
    var a := Full(true, 31);
    FullMayForget();
    StrangerInstead();
    OthersAreActive();
    hide Full, NoteOriginator, Forgets, Established, NoteBoot, IsYoung, AdmissionOk, Sighting.Active;
    NotingKeepsEstablished(a, 500, 1, HOUR);
    ForgottenIsYoungAgain(a, 500, 1, HOUR);
  }

  /**
   A run from boot in which an established node becomes young again: 128 nodes during the warm-up, node 1 after
   it and half an hour later, 31 newcomers, and then one stranger.
   */
  lemma ForgettingHappens(prox: u32 -> Proximity)
    ensures var s := Run(Initial(100), Texts(History(), prox));
            var t := ShouldDrop(s, Text(500, HOUR), prox).state;
            Established(s.admission, 1) && !Established(t.admission, 1) && IsYoung(t.admission, 1, HOUR)
  {
    assert At(Initial(100), WarmingUp(0)) by { assert Alumni(0) == []; }
    HistoryFills();
    hide History, Full, Noted, Quiet, Texts, NoteOriginator, NoteBoot;
    RunIsNoted(Initial(100), WarmingUp(0), History(), prox);
    Reachable(100, Texts(History(), prox));
    var n := NoteOriginator(NoteBoot(Full(true, 31), HOUR), 500, HOUR);
    hide Run, ShouldDrop;
    StrangerForgets(n);
    TextStep(Run(Initial(100), Texts(History(), prox)), Full(true, 31), n, 500, HOUR, prox);
  }
}
