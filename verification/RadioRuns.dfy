/** Conservation of frames, the send guard, order and the duty-cycle bound over every run of a slot. */
module RadioRuns {
  import opened Machine
  import opened RingQueue
  import opened Airtime
  import opened RadioSlot

  datatype Op =
    | EnqueueTx(payload: seq<u8>)
    | CancelTx(from: nat, id: nat)
    | ServiceSlot(script: Script, mayTx: bool)
    | TickSecond

  ghost function Apply(c: Config, w: World, op: Op): (r: World)
    requires w.air.Ok()
    ensures r.air.Ok()
  {
    match op
    case EnqueueTx(payload) => Enqueue(c, w, payload)
    case CancelTx(from, id) => RemoveTx(w, from, id)
    case ServiceSlot(s, mayTx) => Service(c, w, s, mayTx).world
    case TickSecond => w.(air := w.air.Tick())
  }

  // ---- Accounts ----

  /** The frames of a slot and its ledger, by ticket. */
  datatype Books = Books(
    queued: seq<nat>, flying: seq<nat>, completed: seq<nat>, unknown: seq<nat>, cancelled: seq<nat>,
    rejected: seq<nat>, attempts: seq<Attempt>, next: nat)

  function BooksOf(w: World): Books {
    Books(Tickets(w.queue), if w.inFlight.Some? then [w.inFlight.value.ticket] else [], w.ledger.completed,
          w.ledger.unknown, w.ledger.cancelled, w.ledger.rejected, w.ledger.attempts, w.ledger.next)
  }

  /** Every ticket in any account, with multiplicity. */
  ghost function Holdings(b: Books): multiset<nat> {
    multiset(b.queued) + multiset(b.flying) + multiset(b.completed) + multiset(b.unknown)
    + multiset(b.cancelled) + multiset(b.rejected)
  }

  /** Each frame ever queued is in exactly one account, exactly once; no other ticket is in any. */
  ghost predicate Conserved(b: Books) {
    forall t: nat :: Holdings(b)[t] == if t < b.next then 1 else 0
  }

  /** The frames that were offered to the driver with any answer but `NotStarted`, in order. */
  ghost function Offered(attempts: seq<Attempt>): seq<nat> {
    if attempts == [] then []
    else
      var last := attempts[|attempts| - 1];
      Offered(attempts[..|attempts| - 1]) + (if last.answer == NotStarted then [] else [last.ticket])
  }

  /** Whoever was offered is in flight, completed, unknown or rejected, and the other way round. */
  ghost predicate OffersMatch(b: Books) {
    multiset(Offered(b.attempts))
    == multiset(b.flying) + multiset(b.completed) + multiset(b.unknown) + multiset(b.rejected)
  }

  ghost predicate Increasing(s: seq<nat>) {
    forall i, j :: 0 <= i < j < |s| ==> s[i] < s[j]
  }

  /** Frames are offered in the order they were queued, and before those still queued. */
  ghost predicate InOrder(b: Books) {
    Ordered(Offered(b.attempts), b.queued, b.next)
  }

  ghost predicate Ordered(offered: seq<nat>, queued: seq<nat>, next: nat) {
    && Increasing(offered) && Increasing(queued)
    && (forall x :: x in offered ==> x < next)
    && (forall y :: y in queued ==> y < next)
    && forall x, y :: x in offered && y in queued ==> x < y
  }

  lemma OrderedQueue(offered: seq<nat>, queued: seq<nat>, next: nat)
    requires Ordered(offered, queued, next)
    ensures Ordered(offered, queued + [next], next + 1)
  {
    assert forall i :: 0 <= i < |queued| ==> queued[i] in queued;
  }

  lemma OrderedOffer(offered: seq<nat>, queued: seq<nat>, next: nat)
    requires Ordered(offered, queued, next) && queued != []
    ensures Ordered(offered + [queued[0]], queued[1..], next)
  {
    assert forall i :: 0 <= i < |offered| ==> offered[i] in offered;
    assert queued[0] in queued;
    forall y | y in queued[1..] ensures y in queued && queued[0] < y {
      var k :| 0 <= k < |queued[1..]| && queued[1..][k] == y;
      assert queued[0] < queued[k + 1];
    }
  }

  lemma OrderedCancel(offered: seq<nat>, queued: seq<nat>, next: nat, kept: seq<nat>, dropped: seq<nat>)
    requires Ordered(offered, queued, next) && Increasing(kept)
    requires multiset(kept) + multiset(dropped) == multiset(queued)
    ensures Ordered(offered, kept, next)
  {
    forall y | y in kept ensures y in queued {
      assert y in multiset(kept);
      assert y in multiset(queued);
    }
  }

  ghost predicate Guarded(a: Attempt) {
    !a.inFlight && !a.restartPending && a.rxWaiting == 0 && a.progress == Idle && a.mayTx && a.permitted
  }

  ghost predicate AllGuarded(attempts: seq<Attempt>) {
    forall i :: 0 <= i < |attempts| ==> Guarded(attempts[i])
  }

  ghost predicate Balanced(b: Books) {
    Conserved(b) && OffersMatch(b) && InOrder(b) && AllGuarded(b.attempts)
  }

  lemma StillConserved(b: Books, after: Books)
    requires Conserved(b) && Holdings(after) == Holdings(b) && after.next == b.next
    ensures Conserved(after)
  {
  }

  lemma QueueBalanced(b: Books)
    requires Balanced(b)
    ensures Balanced(b.(queued := b.queued + [b.next], next := b.next + 1))
  {
    hide Conserved, Holdings, Offered, Ordered, Guarded, OffersMatch;
    QueueConserved(b);
    OrderedQueue(Offered(b.attempts), b.queued, b.next);
  }

  lemma QueueConserved(b: Books)
    requires Conserved(b) && OffersMatch(b)
    ensures var after := b.(queued := b.queued + [b.next], next := b.next + 1); Conserved(after) && OffersMatch(after)
  {
    QueueHoldings(b);
    hide Holdings, Offered;
  }

  lemma QueueHoldings(b: Books)
    ensures Holdings(b.(queued := b.queued + [b.next], next := b.next + 1)) == Holdings(b) + multiset{b.next}
  {
    assert multiset(b.queued + [b.next]) == multiset(b.queued) + multiset{b.next};
  }

  lemma CancelBalanced(b: Books, kept: seq<nat>, dropped: seq<nat>)
    requires Balanced(b)
    requires multiset(kept) + multiset(dropped) == multiset(b.queued)
    requires Increasing(kept)
    ensures Balanced(b.(queued := kept, cancelled := b.cancelled + dropped))
  {
    var after := b.(queued := kept, cancelled := b.cancelled + dropped);
    assert multiset(after.cancelled) == multiset(b.cancelled) + multiset(dropped);
    assert Holdings(after) == Holdings(b);
    OrderedCancel(Offered(b.attempts), b.queued, b.next, kept, dropped);
  }

  function AfterFinish(b: Books, completed: bool): Books {
    if completed then b.(flying := [], completed := b.completed + b.flying)
    else b.(flying := [], unknown := b.unknown + b.flying)
  }

  lemma FinishBalanced(b: Books, completed: bool)
    requires Balanced(b)
    ensures Balanced(AfterFinish(b, completed))
  {
    var after := AfterFinish(b, completed);
    FinishHoldings(b, completed);
    StillConserved(b, after);
  }

  lemma FinishHoldings(b: Books, completed: bool)
    ensures Holdings(AfterFinish(b, completed)) == Holdings(b)
    ensures OffersMatch(b) ==> OffersMatch(AfterFinish(b, completed))
  {
    assert multiset(b.completed + b.flying) == multiset(b.completed) + multiset(b.flying);
    assert multiset(b.unknown + b.flying) == multiset(b.unknown) + multiset(b.flying);
  }

  lemma OfferedAppend(attempts: seq<Attempt>, a: Attempt)
    ensures Offered(attempts + [a]) == Offered(attempts) + (if a.answer == NotStarted then [] else [a.ticket])
  {
    assert (attempts + [a])[..|attempts|] == attempts;
  }

  /** The books after the front frame was offered: in flight, or rejected. */
  function AfterOffer(b: Books, a: Attempt, rejected: bool): Books
    requires b.queued != []
  {
    b.(queued := b.queued[1..], attempts := b.attempts + [a], flying := if rejected then [] else [a.ticket],
       rejected := if rejected then b.rejected + [a.ticket] else b.rejected)
  }

  lemma OfferHoldings(b: Books, a: Attempt, rejected: bool)
    requires b.queued != [] && b.flying == [] && a.ticket == b.queued[0]
    ensures Holdings(AfterOffer(b, a, rejected)) == Holdings(b)
  {
    var t := a.ticket;
    assert b.queued == [t] + b.queued[1..];
    assert multiset(b.queued) == multiset{t} + multiset(b.queued[1..]);
    assert multiset(b.rejected + [t]) == multiset(b.rejected) + multiset{t};
    assert multiset([t]) == multiset{t};
  }

  lemma OfferMatches(b: Books, a: Attempt, rejected: bool)
    requires OffersMatch(b) && b.queued != [] && b.flying == [] && a.answer != NotStarted
    ensures OffersMatch(AfterOffer(b, a, rejected))
  {
    var t := a.ticket;
    OfferedAppend(b.attempts, a);
    assert multiset(b.rejected + [t]) == multiset(b.rejected) + multiset{t};
    assert multiset(Offered(b.attempts) + [t]) == multiset(Offered(b.attempts)) + multiset{t};
    assert multiset([t]) == multiset{t};
  }

  /** Offering the front frame moves it to exactly one other account. */
  lemma OfferBalanced(b: Books, a: Attempt, rejected: bool)
    requires Balanced(b) && b.queued != [] && b.flying == []
    requires Guarded(a) && a.answer != NotStarted && a.ticket == b.queued[0]
    ensures Balanced(AfterOffer(b, a, rejected))
  {
    hide Conserved, OffersMatch, Holdings, Ordered, Offered, Guarded;
    OfferHoldings(b, a, rejected);
    StillConserved(b, AfterOffer(b, a, rejected));
    OfferMatches(b, a, rejected);
    OfferedAppend(b.attempts, a);
    OrderedOffer(Offered(b.attempts), b.queued, b.next);
  }

  lemma RefusalBalanced(b: Books, a: Attempt)
    requires Balanced(b) && Guarded(a) && a.answer == NotStarted
    ensures Balanced(b.(attempts := b.attempts + [a]))
  {
    OfferedAppend(b.attempts, a);
    assert Offered(b.attempts) + [] == Offered(b.attempts);
    assert Holdings(b.(attempts := b.attempts + [a])) == Holdings(b);
  }

  // ---- The invariant of a slot ----

  /** The charged airtime of the hour that ends now is below the polite duty cycle plus one frame. */
  ghost predicate DutyOk(c: Config, w: World) {
    && Tracks(w.air, w.ledger.charged)
    && (c.dutyPercent < 100 ==> Sum(w.air.tx) < 18_000 * c.dutyPercent + MAX_FRAME_AIRTIME_MS)
  }

  ghost predicate Inv(c: Config, w: World) {
    && Balanced(BooksOf(w))
    && DutyOk(c, w)
    && |w.queue| <= c.txCapacity && |w.rx| <= c.rxCapacity
  }

  lemma TicketsAppend(frames: seq<TxFrame>, f: TxFrame)
    ensures Tickets(frames + [f]) == Tickets(frames) + [f.ticket]
  {
  }

  lemma RetainStep(queue: seq<TxFrame>, drop: TxFrame -> bool)
    requires queue != []
    ensures var n := |queue| - 1;
            Tickets(Retain(queue, drop)) == Tickets(Retain(queue[..n], drop))
                                            + (if drop(queue[n]) then [] else [queue[n].ticket])
  {
    TicketsAppend(Retain(queue[..|queue| - 1], drop), queue[|queue| - 1]);
    assert Retain(queue[..|queue| - 1], drop) + [] == Retain(queue[..|queue| - 1], drop);
  }

  lemma {:induction false} RetainSplits(queue: seq<TxFrame>, drop: TxFrame -> bool, keep: TxFrame -> bool)
    requires forall f: TxFrame :: drop(f) <==> !keep(f)
    ensures multiset(Tickets(Retain(queue, drop))) + multiset(Tickets(Retain(queue, keep))) == multiset(Tickets(queue))
  {
    if queue == [] {
    } else {
      var n := |queue| - 1;
      RetainSplits(queue[..n], drop, keep);
      RetainStep(queue, drop);
      RetainStep(queue, keep);
      assert queue == queue[..n] + [queue[n]];
      TicketsAppend(queue[..n], queue[n]);
      assert multiset(Tickets(queue[..n]) + [queue[n].ticket]) == multiset(Tickets(queue[..n])) + multiset{queue[n].ticket};
      assert drop(queue[n]) <==> !keep(queue[n]);
    }
  }

  /** What stays queued keeps its order. */
  lemma {:induction false} RetainIncreasing(queue: seq<TxFrame>, drop: TxFrame -> bool)
    requires Increasing(Tickets(queue))
    ensures Increasing(Tickets(Retain(queue, drop)))
    ensures queue != [] ==> forall t :: t in Tickets(Retain(queue, drop)) ==> t <= queue[|queue| - 1].ticket
  {
    if queue != [] {
      var n := |queue| - 1;
      var ts := Tickets(queue);
      assert Tickets(queue[..n]) == ts[..n];
      RetainIncreasing(queue[..n], drop);
      RetainStep(queue, drop);
      if n > 0 { assert ts[n - 1] < ts[n]; }
      var r := Tickets(Retain(queue[..n], drop));
      assert forall i :: 0 <= i < |r| ==> r[i] in r;
    }
  }

  lemma EnqueueKept(c: Config, w: World, payload: seq<u8>)
    requires Inv(c, w)
    ensures Inv(c, Enqueue(c, w, payload))
  {
    if |w.queue| < c.txCapacity {
      var b := BooksOf(w);
      TicketsAppend(w.queue, TxFrame(w.ledger.next, payload));
      assert BooksOf(Enqueue(c, w, payload)) == b.(queued := b.queued + [b.next], next := b.next + 1);
      QueueBalanced(b);
    }
  }

  lemma CancelKept(c: Config, w: World, from: nat, id: nat)
    requires Inv(c, w)
    ensures Inv(c, RemoveTx(w, from, id))
  {
    RetainSplits(w.queue, IsFrom(from, id), IsOther(from, id));
    RetainIncreasing(w.queue, IsFrom(from, id));
    CancelBalanced(BooksOf(w), Tickets(Retain(w.queue, IsFrom(from, id))), Tickets(Retain(w.queue, IsOther(from, id))));
  }

  lemma TickKept(c: Config, w: World)
    requires Inv(c, w)
    ensures Inv(c, w.(air := w.air.Tick()))
  {
    TickTracks(w.air, w.ledger.charged);
    TickLowersSum(w.air);
  }

  lemma FinishKept(c: Config, w: World, completed: bool)
    requires Inv(c, w) && w.inFlight.Some?
    ensures Inv(c, Finish(w, completed))
  {
    FinishBalanced(BooksOf(w), completed);
    assert BooksOf(Finish(w, completed)) == AfterFinish(BooksOf(w), completed);
  }

  lemma ReceiveKept(c: Config, w: World, recv: nat -> PollRecv)
    requires Inv(c, w)
    ensures Inv(c, Receive(c, w, recv, 0).0)
  {
    var r := Receive(c, w, recv, 0).0;
    assert BooksOf(r) == BooksOf(w);
  }

  lemma ChargeKept(c: Config, w: World, f: TxFrame)
    requires DutyOk(c, w) && w.air.Allowed(c.dutyPercent)
    ensures DutyOk(c, ChargeFrame(c, w, f))
  {
    LogTracks(w.air, w.ledger.charged, c.packetTime(|f.payload|));
    LogRaisesSum(w.air, Tx, c.packetTime(|f.payload|));
  }

  lemma SendKept(c: Config, w: World, s: Script, mayTx: bool)
    requires Inv(c, w) && w.queue != []
    requires w.inFlight.None? && !w.restartPending && w.rx == [] && s.progress == Idle && mayTx
    requires w.air.Allowed(c.dutyPercent)
    ensures Inv(c, Send(c, w, s, mayTx).0)
    ensures Send(c, w, s, mayTx).1 == Some(TxNotStarted) ==> Send(c, w, s, mayTx).0.queue == w.queue
  {
    assert w.air.Ok();
    SendQueues(c, w, s, mayTx);
    hide Balanced, DutyOk, BooksOf, Send;
    SendBalanced(c, w, s, mayTx);
    SendDuty(c, w, s, mayTx);
  }

  lemma SendBalanced(c: Config, w: World, s: Script, mayTx: bool)
    requires w.air.Ok() && Balanced(BooksOf(w)) && w.queue != []
    requires w.inFlight.None? && !w.restartPending && w.rx == [] && s.progress == Idle && mayTx
    requires w.air.Allowed(c.dutyPercent)
    ensures Balanced(BooksOf(Send(c, w, s, mayTx).0))
  {
    var a := Attempt(w.queue[0].ticket, s.send, false, false, 0, Idle, true, true);
    var b := BooksOf(w);
    SendBooks(c, w, s, mayTx, a);
    if s.send == NotStarted {
      RefusalBalanced(b, a);
    } else {
      OfferBalanced(b, a, s.send == BadLength);
    }
  }

  lemma SendQueues(c: Config, w: World, s: Script, mayTx: bool)
    requires w.air.Ok() && w.queue != []
    ensures var (after, error) := Send(c, w, s, mayTx);
            && after.rx == w.rx && |after.queue| <= |w.queue|
            && (error == Some(TxNotStarted) ==> after.queue == w.queue)
  {
  }

  lemma SendBooks(c: Config, w: World, s: Script, mayTx: bool, a: Attempt)
    requires w.air.Ok() && w.queue != []
    requires w.inFlight.None? && !w.restartPending && w.rx == [] && s.progress == Idle && mayTx
    requires w.air.Allowed(c.dutyPercent)
    requires a == Attempt(w.queue[0].ticket, s.send, false, false, 0, Idle, true, true)
    ensures BooksOf(Send(c, w, s, mayTx).0) ==
            if s.send == NotStarted then BooksOf(w).(attempts := w.ledger.attempts + [a])
            else AfterOffer(BooksOf(w), a, s.send == BadLength)
  {
    assert Tickets(w.queue[1..]) == Tickets(w.queue)[1..];
    match s.send
    case Started =>
    case NotStarted =>
    case BadLength =>
    case SendFailed =>
  }

  lemma SendDuty(c: Config, w: World, s: Script, mayTx: bool)
    requires DutyOk(c, w) && w.queue != [] && w.air.Allowed(c.dutyPercent)
    ensures DutyOk(c, Send(c, w, s, mayTx).0)
  {
    var f := w.queue[0];
    ChargeKept(c, Attempted(w, f, s, mayTx, true).(queue := w.queue[1..]), f);
  }

  lemma TransmitKept(c: Config, w: World, s: Script, mayTx: bool)
    requires Inv(c, w) && w.inFlight.None? && !w.restartPending
    ensures Inv(c, Transmit(c, w, s, mayTx).0)
    ensures Transmit(c, w, s, mayTx).1 == Some(TxNotStarted) ==> Transmit(c, w, s, mayTx).0.queue == w.queue
  {
    hide Inv;
    if w.queue != [] && s.progress == Idle && w.rx == [] && mayTx && w.air.Allowed(c.dutyPercent) {
      SendKept(c, w, s, mayTx);
    }
  }

  lemma HandOverKept(c: Config, w: World)
    requires Inv(c, w)
    ensures Inv(c, HandOver(w).world)
  {
    assert BooksOf(HandOver(w).world) == BooksOf(w);
  }

  lemma ExchangeKept(c: Config, w: World, s: Script, mayTx: bool, completed: bool)
    requires Inv(c, w) && w.inFlight.None?
    requires completed || !w.restartPending
    ensures Inv(c, Exchange(c, w, s, mayTx, completed).world)
    ensures Exchange(c, w, s, mayTx, completed).outcome == Failed(TxNotStarted) ==>
              Exchange(c, w, s, mayTx, completed).world.queue == w.queue
  {
    ReceiveKept(c, w, s.recv);
    var (received, ok) := if w.restartPending then (w, true) else Receive(c, w, s.recv, 0);
    HandOverKept(c, received);
    if ok && !completed {
      TransmitKept(c, received, s, mayTx);
      HandOverKept(c, Transmit(c, received, s, mayTx).0);
    }
  }

  lemma RestartKept(c: Config, w: World, pending: bool)
    requires Inv(c, w)
    ensures Inv(c, w.(restartPending := pending))
  {
    assert BooksOf(w.(restartPending := pending)) == BooksOf(w);
  }

  lemma ServiceKept(c: Config, w: World, s: Script, mayTx: bool)
    requires Inv(c, w)
    ensures Inv(c, Service(c, w, s, mayTx).world)
    ensures Service(c, w, s, mayTx).outcome == Failed(TxNotStarted) ==> Service(c, w, s, mayTx).world.queue == w.queue
  {
    if w.inFlight.Some? {
      PolledKept(c, w, s, mayTx);
    } else if w.restartPending && !s.restart {
    } else {
      RestartKept(c, w, false);
      ExchangeKept(c, w.(restartPending := false), s, mayTx, false);
    }
  }

  lemma PolledKept(c: Config, w: World, s: Script, mayTx: bool)
    requires Inv(c, w) && w.inFlight.Some?
    ensures Inv(c, Service(c, w, s, mayTx).world)
    ensures Service(c, w, s, mayTx).outcome == Failed(TxNotStarted) ==> Service(c, w, s, mayTx).world.queue == w.queue
  {
    if s.poll == Complete {
      FinishKept(c, w, true);
      var done := Finish(w, true);
      RestartKept(c, done, done.restartPending || !s.restart);
      ExchangeKept(c, done.(restartPending := done.restartPending || !s.restart), s, mayTx, true);
    } else if s.poll != Pending {
      FinishKept(c, w, false);
      RestartKept(c, Finish(w, false), !s.restart);
    }
  }

  // ---- Runs ----

  lemma ApplyKept(c: Config, w: World, op: Op)
    requires Inv(c, w)
    ensures Inv(c, Apply(c, w, op))
  {
    match op
    case EnqueueTx(payload) => EnqueueKept(c, w, payload);
    case CancelTx(from, id) => CancelKept(c, w, from, id);
    case ServiceSlot(s, mayTx) => ServiceKept(c, w, s, mayTx);
    case TickSecond => TickKept(c, w);
  }

  lemma InitialOk(c: Config)
    ensures Inv(c, InitialWorld())
  {
    FreshTracks();
    ZeroSum(MINUTES);
  }

  lemma {:induction false} ZeroSum(n: nat)
    ensures Sum(Zeros(n)) == 0
  {
    if n > 0 {
      assert Zeros(n)[..n - 1] == Zeros(n - 1);
      ZeroSum(n - 1);
    }
  }

  ghost function Run(c: Config, ops: seq<Op>): (w: World)
    ensures w.air.Ok()
  {
    if ops == [] then InitialWorld() else Apply(c, Run(c, ops[..|ops| - 1]), ops[|ops| - 1])
  }

  lemma {:induction false} Reachable(c: Config, ops: seq<Op>)
    ensures Inv(c, Run(c, ops))
  {
    if ops == [] {
      InitialOk(c);
    } else {
      Reachable(c, ops[..|ops| - 1]);
      ApplyKept(c, Run(c, ops[..|ops| - 1]), ops[|ops| - 1]);
    }
  }

  /**
   After any run, whatever the driver answered: each queued frame is accounted for exactly once, and
   the frames offered to the driver with any answer but `NotStarted` are exactly those in flight,
   completed, unknown or rejected, each offered once, in the order they were queued.
   */
  lemma TransmitConservation(c: Config, ops: seq<Op>)
    ensures var b := BooksOf(Run(c, ops));
            && Conserved(b) && OffersMatch(b) && InOrder(b)
            && forall t: nat :: multiset(Offered(b.attempts))[t] <= 1
  {
    var b := BooksOf(Run(c, ops));
    Reachable(c, ops);
    forall t: nat ensures multiset(Offered(b.attempts))[t] <= 1 {
      assert Holdings(b)[t] <= 1;
    }
  }

  /** Every offer of any run met every condition at the moment it was made. */
  lemma OffersAreGuarded(c: Config, ops: seq<Op>, i: nat)
    requires i < |Run(c, ops).ledger.attempts|
    ensures Guarded(Run(c, ops).ledger.attempts[i])
  {
    Reachable(c, ops);
  }

  /** A refused start leaves the queue as it was, in every reachable state. */
  lemma RefusedStartKeepsQueue(c: Config, ops: seq<Op>, s: Script, mayTx: bool)
    requires Service(c, Run(c, ops), s, mayTx).outcome == Failed(TxNotStarted)
    ensures Service(c, Run(c, ops), s, mayTx).world.queue == Run(c, ops).queue
  {
    Reachable(c, ops);
    ServiceKept(c, Run(c, ops), s, mayTx);
  }

  /**
   In every reachable state, the airtime charged in the current and the previous 59 minutes is what
   the ring adds up to, and stays below half the region's duty cycle plus one frame: for the 10
   percent of EU_868 that is 180 000 + 20 000 ms.
   */
  lemma DutyCycleBound(c: Config, ops: seq<Op>)
    requires c.dutyPercent < 100
    ensures var w := Run(c, ops);
            && HourSum(w.air, w.ledger.charged) == Sum(w.air.tx)
            && HourSum(w.air, w.ledger.charged) < 18_000 * c.dutyPercent + MAX_FRAME_AIRTIME_MS
  {
    var w := Run(c, ops);
    Reachable(c, ops);
    SmallRingIsLastHour(w.air, w.ledger.charged);
  }
}
