/** The radio slot object: ring queues, one frame in flight, proved against the transition system. */
module RadioDevice {
  import opened Machine
  import opened RingQueue
  import opened Airtime
  import Spec = RadioSlot
  import opened RadioSlot

  class Slot {
    const rxQueue: Ring<RxFrame>
    const txQueue: Ring<TxFrame>
    const packetTime: nat -> u32
    const air: AirTime
    var rxOrdinal: u32
    var rxRestartPending: bool
    var txInFlight: Option<TxFrame>
    ghost var ledger: Ledger

    ghost function Repr(): set<object> {
      {this, rxQueue, rxQueue.buf, txQueue, txQueue.buf, air, air.channelUtilization, air.utilizationTx}
    }

    ghost predicate Valid()
      reads Repr()
    {
      && rxQueue as object != txQueue
      && rxQueue.buf as object != txQueue.buf
      && rxQueue.buf as object !in {air.channelUtilization, air.utilizationTx}
      && txQueue.buf as object !in {air.channelUtilization, air.utilizationTx}
      && rxQueue.Valid() && txQueue.Valid() && air.Valid()
    }

    ghost function Model(): World
      requires Valid()
      reads Repr()
    {
      World(txQueue.Contents(), txInFlight, rxRestartPending, rxQueue.Contents(), rxOrdinal, air.Model(), ledger)
    }

    ghost function Settings(): Config {
      Config(rxQueue.buf.Length, txQueue.buf.Length, air.dutyPercent, packetTime)
    }

    constructor (rxCapacity: nat, txCapacity: nat, dutyPercent: nat, packetTime: nat -> u32)
      requires rxCapacity > 0 && txCapacity > 0
      ensures Valid() && fresh(Repr()) && Model() == InitialWorld()
      ensures Settings() == Config(rxCapacity, txCapacity, dutyPercent, packetTime)
    {
      rxQueue := new Ring<RxFrame>(rxCapacity);
      txQueue := new Ring<TxFrame>(txCapacity);
      air := new AirTime(dutyPercent);
      this.packetTime := packetTime;
      rxOrdinal, rxRestartPending, txInFlight := 0, false, None;
      ledger := Ledger(0, [], [], [], [], [], []);
    }

    method EnqueueTx(frame: TxFrame) returns (ok: bool)
      requires Valid() && frame.ticket == ledger.next
      modifies this`ledger, txQueue`tail, txQueue`len, txQueue.buf
      ensures Valid() && Model() == Enqueue(Settings(), old(Model()), frame.payload)
      ensures ok <==> |old(Model()).queue| < txQueue.buf.Length
    {
      ok := txQueue.Push(frame);
      if ok {
        ledger := ledger.(next := ledger.next + 1);
      }
    }

    method CancelTx(from: nat, id: nat) returns (removed: nat)
      requires Valid()
      modifies this`ledger, txQueue`tail, txQueue`len, txQueue.buf
      ensures Valid() && Model() == RemoveTx(old(Model()), from, id)
      ensures removed == |old(Model()).queue| - |Model().queue|
    {
      ledger := ledger.(cancelled := ledger.cancelled + Tickets(Retain(txQueue.Contents(), IsOther(from, id))));
      removed := txQueue.RemoveWhere(IsFrom(from, id));
    }

    method AcceptFrame(f: RxFrame)
      requires Valid() && rxQueue.len < rxQueue.buf.Length
      modifies this`rxOrdinal, rxQueue`tail, rxQueue`len, rxQueue.buf, air.channelUtilization, air.utilizationTx
      ensures Valid() && Model() == Accept(Settings(), old(Model()), f)
    {
      air.LogAirtime(RxAll, packetTime(|f.payload|));
      var _ := rxQueue.Push(f);
      rxOrdinal := if rxOrdinal + 1 == U32_SPAN then 1 else rxOrdinal + 1;
    }

    /** The receive loop: until the driver has nothing, fails, or the queue is full. */
    method ReceiveAll(recv: nat -> PollRecv) returns (ok: bool)
      requires Valid()
      modifies this`rxOrdinal, rxQueue`tail, rxQueue`len, rxQueue.buf, air.channelUtilization, air.utilizationTx
      ensures Valid() && (Model(), ok) == Receive(Settings(), old(Model()), recv, 0)
    {
      ghost var c, was := Settings(), Model();
      ghost var w := was;
      hide Accept;
      var k := 0;
      while rxQueue.len < rxQueue.buf.Length
        invariant Valid() && Model() == w
        invariant Receive(c, was, recv, 0) == Receive(c, w, recv, k)
        decreases rxQueue.buf.Length - rxQueue.len
      {
        match recv(k)
        case Nothing => return true;
        case RecvFailed => return false;
        case Received(f) =>
          AcceptFrame(f);
          w := Accept(c, w, f);
          k := k + 1;
      }
      return true;
    }

    method SendFront(s: Script, ghost mayTx: bool) returns (error: Option<RadioError>)
      requires Valid() && txQueue.len > 0
      modifies Repr()
      ensures Valid() && (Model(), error) == Send(Settings(), old(Model()), s, mayTx)
    {
      hide Occupied, Wrap, Minute;
      ghost var c, w := Settings(), Model();
      var popped := txQueue.Pop();
      var f := popped.value;
      ledger := Attempted(w, f, s, mayTx, w.air.Allowed(c.dutyPercent)).ledger;
      match s.send
      case Started =>
        LogTx(f);
        txInFlight := Some(f);
        error := None;
      case NotStarted =>
        if !s.resume {
          rxRestartPending := true;
        }
        var _ := txQueue.PushFront(f);
        error := Some(TxNotStarted);
      case BadLength =>
        if !s.resume {
          rxRestartPending := true;
        }
        ledger := ledger.(rejected := ledger.rejected + [f.ticket]);
        error := Some(InvalidLength);
      case SendFailed =>
        LogTx(f);
        txInFlight := Some(f);
        error := Some(Hardware);
    }

    method LogTx(f: TxFrame)
      requires Valid()
      modifies this`ledger, air.channelUtilization, air.utilizationTx
      ensures Valid() && Model() == ChargeFrame(Settings(), old(Model()), f)
    {
      var ms := packetTime(|f.payload|);
      ledger := ledger.(charged := ledger.charged + [Event(Minute(air.Model()), Min(ms, MAX_FRAME_AIRTIME_MS))]);
      air.LogAirtime(Tx, ms);
    }

    method TransmitFront(s: Script, mayTx: bool) returns (error: Option<RadioError>)
      requires Valid()
      modifies Repr()
      ensures Valid() && (Model(), error) == Transmit(Settings(), old(Model()), s, mayTx)
    {
      hide Send;
      if txQueue.len == 0 {
        return None;
      }
      if s.progress == ProgressFailed {
        return Some(Hardware);
      }
      if s.progress == Busy || rxQueue.len > 0 || !mayTx {
        return None;
      }
      var allowed := air.IsTxAllowed();
      if !allowed {
        return None;
      }
      error := SendFront(s, mayTx);
    }

    method HandOverFrame() returns (o: Outcome)
      requires Valid()
      modifies rxQueue`head, rxQueue`len
      ensures Valid() && Served(Model(), o) == HandOver(old(Model()))
    {
      var rx := rxQueue.Pop();
      o := Report(rx);
    }

    method ExchangeFrames(s: Script, mayTx: bool, completed: bool) returns (o: Outcome)
      requires Valid()
      modifies Repr()
      ensures Valid() && Served(Model(), o) == Exchange(Settings(), old(Model()), s, mayTx, completed)
    {
      hide Receive, Transmit, HandOver;
      if !rxRestartPending {
        var ok := ReceiveAll(s.recv);
        if !ok {
          return Failed(Hardware);
        }
      }
      if !completed {
        var error := TransmitFront(s, mayTx);
        if error.Some? {
          return Failed(error.value);
        }
      }
      o := HandOverFrame();
    }

    method FinishFrame(completed: bool)
      requires Valid() && txInFlight.Some?
      modifies this`txInFlight, this`ledger
      ensures Valid() && Model() == Finish(old(Model()), completed)
    {
      ghost var ticket := txInFlight.value.ticket;
      txInFlight := None;
      ledger := if completed then ledger.(completed := ledger.completed + [ticket])
                else ledger.(unknown := ledger.unknown + [ticket]);
    }

    /** One service call. */
    method ServiceRadio(s: Script, mayTx: bool) returns (o: Outcome)
      requires Valid()
      modifies Repr()
      ensures Valid() && Served(Model(), o) == Service(Settings(), old(Model()), s, mayTx)
    {
      hide Exchange, Finish;
      if txInFlight.Some? {
        if s.poll == Pending {
          return Report(None);
        }
        FinishFrame(s.poll == Complete);
        if s.poll != Complete {
          rxRestartPending := !s.restart;
          return Failed(TxOutcomeUnknown);
        }
        if !s.restart {
          rxRestartPending := true;
        }
        o := ExchangeFrames(s, mayTx, true);
        return;
      }
      if rxRestartPending {
        if !s.restart {
          return Failed(Hardware);
        }
        rxRestartPending := false;
      }
      o := ExchangeFrames(s, mayTx, false);
    }
  }
}
