/**
 What one service call does, read off the slot and the driver's answers: exactly when a queued frame is offered,
 what each answer leaves behind, and what every other call does instead.
 */
module RadioService {
  import opened Machine
  import opened RingQueue
  import opened Airtime
  import opened RadioSlot
  import opened RadioRuns

  // ---- Reception ----

  /** The frames the driver hands over one after the other. */
  ghost predicate Arrive(recv: nat -> PollRecv, k: nat, frames: seq<RxFrame>) {
    forall i :: 0 <= i < |frames| ==> recv(k + i) == Received(frames[i])
  }

  /** Why reception stops behind them: no room, nothing more, or a failure. */
  ghost predicate Stops(c: Config, recv: nat -> PollRecv, k: nat, waiting: nat, ok: bool) {
    if waiting >= c.rxCapacity then ok
    else (recv(k) == Nothing && ok) || (recv(k) == RecvFailed && !ok)
  }

  /** The number of the last of `n` more receptions: it wraps past zero. */
  ghost function OrdinalAfter(ordinal: u32, n: nat): nat {
    if n == 0 then ordinal else (ordinal + n - 1) % 0xFFFF_FFFF + 1
  }

  lemma OrdinalStep(ordinal: u32, n: nat)
    ensures OrdinalAfter(NextOrdinal(ordinal), n) == OrdinalAfter(ordinal, n + 1)
  {
    if ordinal == 0xFFFF_FFFF && n > 0 {
      assert (ordinal + n) % 0xFFFF_FFFF == n % 0xFFFF_FFFF;
    }
  }

  /** Airtime on the channel of received frames, each cut at 20 seconds. */
  ghost function Heard(c: Config, frames: seq<RxFrame>): nat {
    if frames == [] then 0 else Min(c.packetTime(|frames[0].payload|), 20_000) + Heard(c, frames[1..])
  }

  /** The channel's counter after these frames: one ten-second period, saturating. */
  ghost function Listened(c: Config, a: Air, frames: seq<RxFrame>): Air
    requires a.Ok()
  {
    a.(channel := a.channel[a.Period() := Min(a.channel[a.Period()] + Heard(c, frames), U32_MAX)])
  }

  ghost predicate Took(c: Config, w: World, recv: nat -> PollRecv, k: nat, after: World, ok: bool, frames: seq<RxFrame>)
    requires w.air.Ok()
  {
    && after.rx == w.rx + frames && Arrive(recv, k, frames) && Stops(c, recv, k + |frames|, |after.rx|, ok)
    && after.ordinal == OrdinalAfter(w.ordinal, |frames|) && after.air == Listened(c, w.air, frames)
  }

  lemma ListenStep(c: Config, a: Air, f: RxFrame, rest: seq<RxFrame>)
    requires a.Ok()
    ensures Listened(c, a.Log(RxAll, c.packetTime(|f.payload|)), rest) == Listened(c, a, [f] + rest)
    ensures Listened(c, a, []) == a
  {
    var p := a.Period();
    var heard := a.Log(RxAll, c.packetTime(|f.payload|));
    assert ([f] + rest)[1..] == rest;
    assert heard.Period() == p;
    assert heard.channel[p := Min(heard.channel[p] + Heard(c, rest), U32_MAX)]
           == a.channel[p := Min(a.channel[p] + Heard(c, [f] + rest), U32_MAX)];
    assert a.channel[p := a.channel[p]] == a.channel;
  }

  lemma ArriveStep(recv: nat -> PollRecv, k: nat, f: RxFrame, rest: seq<RxFrame>)
    requires recv(k) == Received(f) && Arrive(recv, k + 1, rest)
    ensures Arrive(recv, k, [f] + rest)
  {
    forall i | 0 <= i < |[f] + rest| ensures recv(k + i) == Received(([f] + rest)[i]) {
      if i > 0 { assert recv(k + 1 + (i - 1)) == Received(rest[i - 1]); }
    }
  }

  /** Reception takes the frames the driver has, in order, as many as there is room for. */
  lemma {:induction false} ReceptionTakes(c: Config, w: World, recv: nat -> PollRecv, k: nat)
    returns (frames: seq<RxFrame>)
    requires w.air.Ok()
    ensures var (after, ok) := Receive(c, w, recv, k); Took(c, w, recv, k, after, ok, frames)
    decreases c.rxCapacity - |w.rx|
  {
    if |w.rx| >= c.rxCapacity || !recv(k).Received? {
      frames := [];
      ListenStep(c, w.air, RxFrame([]), []);
      assert w.rx + [] == w.rx;
      hide Listened;
    } else {
      var f := recv(k).frame;
      var next := Accept(c, w, f);
      var rest := ReceptionTakes(c, next, recv, k + 1);
      frames := [f] + rest;
      var (after, ok) := Receive(c, next, recv, k + 1);
      assert Receive(c, w, recv, k) == (after, ok);
      TookOneMore(c, w, recv, k, after, ok, f, rest);
      hide Took, Receive, Accept;
    }
  }

  lemma TookOneMore(
    c: Config, w: World, recv: nat -> PollRecv, k: nat, after: World, ok: bool, f: RxFrame, rest: seq<RxFrame>)
    requires w.air.Ok() && recv(k) == Received(f) && Took(c, Accept(c, w, f), recv, k + 1, after, ok, rest)
    ensures Took(c, w, recv, k, after, ok, [f] + rest)
  {
    assert (w.rx + [f]) + rest == w.rx + ([f] + rest);
    OrdinalStep(w.ordinal, |rest|);
    ListenStep(c, w.air, f, rest);
    ArriveStep(recv, k, f, rest);
    hide Listened, OrdinalAfter, NextOrdinal, Air.Log, Arrive, Air.Ok;
  }

  // ---- The offer ----

  /** The frame in front is offered: nothing in flight, nothing to restart or hear, and both permissions. */
  ghost predicate Offers(c: Config, w: World, s: Script, mayTx: bool) {
    && w.inFlight.None? && (w.restartPending ==> s.restart)
    && w.rx == [] && (c.rxCapacity == 0 || s.recv(0) == Nothing)
    && w.queue != [] && s.progress == Idle && mayTx
    && (c.dutyPercent >= 100 || Sum(w.air.tx) < 18_000 * c.dutyPercent)
  }

  /** The ring minute and the channel period charged with a frame that went on the air, or may have. */
  ghost function OnAir(c: Config, a: Air, f: TxFrame): Air
    requires a.Ok()
  {
    var ms, minute, period := Min(c.packetTime(|f.payload|), 20_000), a.seconds / 60 % 60, a.seconds / 10 % 6;
    a.(tx := a.tx[minute := Min(a.tx[minute] + ms, U32_MAX)],
       channel := a.channel[period := Min(a.channel[period] + ms, U32_MAX)])
  }

  /** What the driver's answer makes of the slot: the frame is in flight, kept in front, or given up. */
  ghost function Answered(c: Config, w: World, s: Script): Served
    requires w.air.Ok() && w.queue != []
  {
    var f, rest := w.queue[0], w.queue[1..];
    var asked := w.ledger.(attempts := w.ledger.attempts
                           + [Attempt(f.ticket, s.send, false, false, 0, Idle, true, true)]);
    var event := Event(w.air.seconds / 60, Min(c.packetTime(|f.payload|), 20_000));
    var flying := w.(queue := rest, inFlight := Some(f), restartPending := false, air := OnAir(c, w.air, f),
                     ledger := asked.(charged := asked.charged + [event]));
    match s.send
    case Started => Served(flying, Report(None))
    case NotStarted => Served(w.(restartPending := !s.resume, ledger := asked), Failed(TxNotStarted))
    case BadLength =>
      Served(w.(queue := rest, restartPending := !s.resume,
                ledger := asked.(rejected := asked.rejected + [f.ticket])), Failed(InvalidLength))
    case SendFailed => Served(flying, Failed(Hardware))
  }

  lemma AllowedIs(a: Air, duty: nat)
    ensures a.Allowed(duty) <==> duty >= 100 || Sum(a.tx) < 18_000 * duty
  {
  }

  lemma OfferedIs(c: Config, w: World, s: Script)
    requires w.air.Ok() && Offers(c, w, s, true)
    ensures Service(c, w, s, true) == Answered(c, w, s)
  {
    AllowedIs(w.air, c.dutyPercent);
    var ready := w.(restartPending := false);
    assert Receive(c, ready, s.recv, 0) == (ready, true);
    hide Sum, Receive;
    assert Service(c, w, s, true) == Exchange(c, ready, s, true, false);
    assert Transmit(c, ready, s, true) == Send(c, ready, s, true);
    match s.send
    case Started =>
    case NotStarted =>
    case BadLength =>
    case SendFailed =>
  }

  // ---- Every other call ----

  /** The first waiting frame is handed over. */
  ghost function Handed(w: World): Served {
    if w.rx == [] then Served(w, Report(None)) else Served(w.(rx := w.rx[1..]), Report(Some(w.rx[0])))
  }

  /** What a call does that offers nothing, once reception is over. */
  ghost function Quiet(received: World, ok: bool, s: Script, flew: bool): Served {
    if !ok || (!flew && received.queue != [] && s.progress == ProgressFailed) then Served(received, Failed(Hardware))
    else Handed(received)
  }

  /** A slot whose frame in flight is over, and whether the receiver must be restarted first. */
  ghost function Landed(w: World, completed: bool, pending: bool): World
    requires w.inFlight.Some?
  {
    var t, l := w.inFlight.value.ticket, w.ledger;
    w.(inFlight := None, restartPending := pending,
       ledger := if completed then l.(completed := l.completed + [t]) else l.(unknown := l.unknown + [t]))
  }

  /** The whole of a service call that offers nothing. */
  ghost function Unoffered(c: Config, w: World, s: Script): Served
    requires w.air.Ok()
  {
    if w.inFlight.Some? then
      match s.poll
      case Pending => Served(w, Report(None))
      case Complete =>
        var done := Landed(w, true, w.restartPending || !s.restart);
        if done.restartPending then Handed(done)
        else var (received, ok) := Receive(c, done, s.recv, 0); Quiet(received, ok, s, true)
      case _ => Served(Landed(w, false, !s.restart), Failed(TxOutcomeUnknown))
    else if w.restartPending && !s.restart then Served(w, Failed(Hardware))
    else var (received, ok) := Receive(c, w.(restartPending := false), s.recv, 0); Quiet(received, ok, s, false)
  }

  lemma UnofferedIs(c: Config, w: World, s: Script, mayTx: bool)
    requires w.air.Ok() && !Offers(c, w, s, mayTx)
    ensures Service(c, w, s, mayTx) == Unoffered(c, w, s)
  {
    if w.inFlight.None? && (w.restartPending ==> s.restart) {
      var ready := w.(restartPending := false);
      var (received, ok) := Receive(c, ready, s.recv, 0);
      AllowedIs(w.air, c.dutyPercent);
      assert received.rx == [] ==> w.rx == [] && (c.rxCapacity == 0 || (ok ==> s.recv(0) == Nothing)) by {
        var frames := ReceptionTakes(c, ready, s.recv, 0);
        assert received.rx == ready.rx + frames;
        if received.rx == [] { assert frames == []; }
        hide Listened, OrdinalAfter;
      }
      hide Receive, Sum, Send;
      if ok { assert Transmit(c, received, s, mayTx)
                     == (received, if received.queue != [] && s.progress == ProgressFailed then Some(Hardware)
                                   else None); }
    }
    hide Receive, Transmit;
  }

  /**
   A service call offers the frame in front exactly under that condition; then the driver's answer decides, and
   otherwise no attempt is recorded and the queue stays as it is.
   */
  lemma ServiceExactly(c: Config, w: World, s: Script, mayTx: bool)
    requires w.air.Ok()
    ensures Service(c, w, s, mayTx) == if Offers(c, w, s, mayTx) then Answered(c, w, s) else Unoffered(c, w, s)
    ensures var after := Service(c, w, s, mayTx).world;
            && |after.ledger.attempts| == |w.ledger.attempts| + (if Offers(c, w, s, mayTx) then 1 else 0)
            && w.ledger.attempts <= after.ledger.attempts
            && (if Offers(c, w, s, mayTx) then after.ledger.attempts[|w.ledger.attempts|].ticket == w.queue[0].ticket
                else after.queue == w.queue)
  {
    if Offers(c, w, s, mayTx) { OfferedIs(c, w, s); } else { UnofferedIs(c, w, s, mayTx); }
    hide Service, Offers, OnAir, Receive;
  }

  /** Originator and packet id in octets 4 to 11 of a frame, the least significant octet first. */
  ghost predicate Carries(f: TxFrame, from: nat, id: nat) {
    && |f.payload| >= 16
    && var p := f.payload;
       && p[4] as int + 0x100 * p[5] as int + 0x1_0000 * p[6] as int + 0x100_0000 * p[7] as int == from
       && p[8] as int + 0x100 * p[9] as int + 0x1_0000 * p[10] as int + 0x100_0000 * p[11] as int == id
  }

  lemma {:induction false} RetainedIs(queue: seq<TxFrame>, drop: TxFrame -> bool, f: TxFrame)
    ensures f in Retain(queue, drop) <==> f in queue && !drop(f)
  {
    if queue != [] {
      var n := |queue| - 1;
      RetainedIs(queue[..n], drop, f);
      assert queue == queue[..n] + [queue[n]];
    }
  }

  /** Cancelling takes exactly the frames of that packet out of the queue, and touches nothing else but the ledger. */
  lemma CancelsExactly(w: World, from: nat, id: nat, f: TxFrame)
    ensures var after := RemoveTx(w, from, id);
            && (f in after.queue <==> f in w.queue && !Carries(f, from, id))
            && after == w.(queue := after.queue, ledger := w.ledger.(cancelled := after.ledger.cancelled))
  {
    RetainedIs(w.queue, IsFrom(from, id), f);
    hide Retain;
  }
}
