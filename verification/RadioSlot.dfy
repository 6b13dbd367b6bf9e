/**
 One radio's service loop over an adversarial driver: at most one frame in flight, receptions first,
 transmissions only with permission, and every queued frame accounted for.
 */
module RadioSlot {
  import opened Machine
  import opened RingQueue
  import opened Airtime

  const HEADER_LEN: nat := 16

  /** A frame to send. The ticket names the frame in the model; no code reads it. */
  datatype TxFrame = TxFrame(ticket: nat, payload: seq<u8>)

  datatype RxFrame = RxFrame(payload: seq<u8>)

  datatype RadioError = TxNotStarted | TxOutcomeUnknown | InvalidLength | Hardware

  // ---- What the driver may answer during one service call ----

  datatype PollTx = Pending | Complete | OutcomeUnknown | PollFailed
  datatype PollRecv = Received(frame: RxFrame) | Nothing | RecvFailed
  datatype RxProgress = Idle | Busy | ProgressFailed
  datatype StartSend = Started | NotStarted | BadLength | SendFailed

  /** The answers, in call order: one restart after a finished frame or before receiving, one after a refusal. */
  datatype Script = Script(
    poll: PollTx, restart: bool, recv: nat -> PollRecv, progress: RxProgress, send: StartSend, resume: bool)

  datatype Outcome = Report(rx: Option<RxFrame>) | Failed(error: RadioError)

  // ---- The slot, its clock of airtime and the ledger of frames ----

  /** The circumstances under which the driver was asked to send. */
  datatype Attempt = Attempt(
    ticket: nat, answer: StartSend, inFlight: bool, restartPending: bool, rxWaiting: nat, progress: RxProgress,
    mayTx: bool, permitted: bool)

  datatype Ledger = Ledger(
    next: nat, completed: seq<nat>, unknown: seq<nat>, cancelled: seq<nat>, rejected: seq<nat>,
    attempts: seq<Attempt>, charged: seq<Event>)

  datatype World = World(
    queue: seq<TxFrame>, inFlight: Option<TxFrame>, restartPending: bool, rx: seq<RxFrame>, ordinal: u32,
    air: Air, ledger: Ledger)

  datatype Config = Config(rxCapacity: nat, txCapacity: nat, dutyPercent: nat, packetTime: nat -> u32)

  datatype Served = Served(world: World, outcome: Outcome)

  const EMPTY_LEDGER := Ledger(0, [], [], [], [], [], [])

  function InitialWorld(): World { World([], None, false, [], 0, FreshAir(), EMPTY_LEDGER) }

  /** Originator and packet id of a frame, as the mesh header carries them. */
  function HeaderFromId(payload: seq<u8>): Option<(nat, nat)> {
    if |payload| < HEADER_LEN then None else Some((FromLe32(payload[4..8]), FromLe32(payload[8..12])))
  }

  function NextOrdinal(n: u32): u32 {
    if n + 1 == U32_SPAN then 1 else n + 1
  }

  // ---- The phases of a service call ----

  /** The frame in flight is over: it completed, or nobody knows. */
  function Finish(w: World, completed: bool): World
    requires w.inFlight.Some?
  {
    var t := w.inFlight.value.ticket;
    w.(inFlight := None,
       ledger := if completed then w.ledger.(completed := w.ledger.completed + [t])
                 else w.ledger.(unknown := w.ledger.unknown + [t]))
  }

  /** One received frame: logged, queued and numbered. */
  function Accept(c: Config, w: World, f: RxFrame): World
    requires w.air.Ok()
  {
    w.(rx := w.rx + [f], ordinal := NextOrdinal(w.ordinal), air := w.air.Log(RxAll, c.packetTime(|f.payload|)))
  }

  /** Receive until the driver has nothing, the queue is full, or the driver fails. */
  function Receive(c: Config, w: World, recv: nat -> PollRecv, k: nat): (r: (World, bool))
    requires w.air.Ok()
    ensures r.0.air.Ok() && r.0.air.tx == w.air.tx && r.0.air.seconds == w.air.seconds
    ensures r.0.queue == w.queue && r.0.inFlight == w.inFlight && r.0.ledger == w.ledger
    ensures r.0.restartPending == w.restartPending
    ensures w.rx <= r.0.rx && |r.0.rx| <= Max(c.rxCapacity, |w.rx|)
    decreases c.rxCapacity - |w.rx|
  {
    if |w.rx| >= c.rxCapacity then (w, true)
    else
      match recv(k)
      case Nothing => (w, true)
      case RecvFailed => (w, false)
      case Received(f) =>
        Receive(c, Accept(c, w, f), recv, k + 1)
  }

  /** What is logged when the driver took the frame, or failed so that it may have. */
  function ChargeFrame(c: Config, w: World, f: TxFrame): World
    requires w.air.Ok()
  {
    var ms := c.packetTime(|f.payload|);
    w.(air := w.air.Log(Tx, ms),
       ledger := w.ledger.(charged := w.ledger.charged + [Event(Minute(w.air), Min(ms, MAX_FRAME_AIRTIME_MS))]))
  }

  function Attempted(w: World, f: TxFrame, s: Script, mayTx: bool, permitted: bool): World {
    w.(ledger := w.ledger.(attempts := w.ledger.attempts
       + [Attempt(f.ticket, s.send, w.inFlight.Some?, w.restartPending, |w.rx|, s.progress, mayTx, permitted)]))
  }

  /** The driver is asked to send the front frame; the error answers differ in what becomes of it. */
  function Send(c: Config, w: World, s: Script, mayTx: bool): (World, Option<RadioError>)
    requires w.air.Ok() && w.queue != []
  {
    var f := w.queue[0];
    var asked := Attempted(w, f, s, mayTx, w.air.Allowed(c.dutyPercent));
    var popped := asked.(queue := w.queue[1..]);
    match s.send
    case Started => (ChargeFrame(c, popped, f).(inFlight := Some(f)), None)
    case NotStarted => (asked.(restartPending := asked.restartPending || !s.resume), Some(TxNotStarted))
    case BadLength =>
      (popped.(restartPending := popped.restartPending || !s.resume,
               ledger := popped.ledger.(rejected := popped.ledger.rejected + [f.ticket])), Some(InvalidLength))
    case SendFailed => (ChargeFrame(c, popped, f).(inFlight := Some(f)), Some(Hardware))
  }

  /** The transmit decision: receptions in progress or waiting, the router and the duty cycle all defer it. */
  function Transmit(c: Config, w: World, s: Script, mayTx: bool): (World, Option<RadioError>)
    requires w.air.Ok()
  {
    if w.queue == [] then (w, None)
    else if s.progress == ProgressFailed then (w, Some(Hardware))
    else if s.progress == Busy || w.rx != [] || !mayTx || !w.air.Allowed(c.dutyPercent) then (w, None)
    else Send(c, w, s, mayTx)
  }

  function HandOver(w: World): Served {
    if w.rx == [] then Served(w, Report(None)) else Served(w.(rx := w.rx[1..]), Report(Some(w.rx[0])))
  }

  /** Receiving and sending, once no frame is in flight. */
  function Exchange(c: Config, w: World, s: Script, mayTx: bool, completed: bool): Served
    requires w.air.Ok()
  {
    var (received, ok) := if w.restartPending then (w, true) else Receive(c, w, s.recv, 0);
    if !ok then Served(received, Failed(Hardware))
    else if completed then HandOver(received)
    else
      var (sent, error) := Transmit(c, received, s, mayTx);
      if error.Some? then Served(sent, Failed(error.value)) else HandOver(sent)
  }

  function Service(c: Config, w: World, s: Script, mayTx: bool): Served
    requires w.air.Ok()
  {
    if w.inFlight.Some? then
      match s.poll
      case Pending => Served(w, Report(None))
      case Complete =>
        var done := Finish(w, true);
        Exchange(c, done.(restartPending := done.restartPending || !s.restart), s, mayTx, true)
      case _ =>
        Served(Finish(w, false).(restartPending := !s.restart), Failed(TxOutcomeUnknown))
    else if w.restartPending && !s.restart then Served(w, Failed(Hardware))
    else Exchange(c, w.(restartPending := false), s, mayTx, false)
  }

  function Enqueue(c: Config, w: World, payload: seq<u8>): World {
    if |w.queue| == c.txCapacity then w
    else w.(queue := w.queue + [TxFrame(w.ledger.next, payload)], ledger := w.ledger.(next := w.ledger.next + 1))
  }

  function IsFrom(from: nat, id: nat): TxFrame -> bool {
    (f: TxFrame) => HeaderFromId(f.payload) == Some((from, id))
  }

  function IsOther(from: nat, id: nat): TxFrame -> bool {
    (f: TxFrame) => HeaderFromId(f.payload) != Some((from, id))
  }

  function Tickets(frames: seq<TxFrame>): seq<nat> {
    seq(|frames|, i requires 0 <= i < |frames| => frames[i].ticket)
  }

  /** Cancelling queued frames of one packet; the ones dropped go to the ledger. */
  function RemoveTx(w: World, from: nat, id: nat): World {
    w.(queue := Retain(w.queue, IsFrom(from, id)),
       ledger := w.ledger.(cancelled := w.ledger.cancelled + Tickets(Retain(w.queue, IsOther(from, id)))))
  }
}
