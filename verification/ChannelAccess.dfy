/** The wrap-safe transmit hold after receptions and transmissions, against an unbounded clock. */
module ChannelAccess {
  import opened Machine

  const PEER_TURNAROUND_MS: u32 := 250
  const TX_GAP_MS: u32 := 100
  const HALF: int := 0x8000_0000

  datatype Hold = Hold(until: u32, holding: bool) {

    function Extend(until': u32, now: u32): Hold {
      var later := if !holding || WrappingSub(until', until) < HALF then until' else until;
      Hold(later, WrappingSub(later, now) < HALF && later != now)
    }

    /** Asking clears a hold that has passed. */
    function Ask(now: u32): Hold {
      if holding && WrappingSub(now, until) < HALF then Hold(until, false) else this
    }

    predicate MayTransmit(now: u32) { !Ask(now).holding }

    function RemainingMs(now: u32): u32 {
      if MayTransmit(now) then 0 else WrappingSub(until, now)
    }
  }

  function RxHold(backoff: u32): u32 { Max(backoff, PEER_TURNAROUND_MS) }

  // ---- Runs on an unbounded clock ----

  datatype Call = NoteRx(at: nat, backoff: u32) | NoteTxDone(at: nat) | AskTransmit(at: nat) {
    /** The hold the call asks for. */
    function Length(): nat {
      match this
      case NoteRx(_, backoff) => RxHold(backoff)
      case NoteTxDone(_) => TX_GAP_MS
      case AskTransmit(_) => 0
    }
  }

  function Apply(h: Hold, c: Call): Hold {
    var now := Clock(c.at);
    match c
    case NoteRx(_, backoff) => h.Extend(WrappingAdd(now, RxHold(backoff)), now)
    case NoteTxDone(_) => h.Extend(WrappingAdd(now, TX_GAP_MS), now)
    case AskTransmit(_) => h.Ask(now)
  }

  function Run(calls: seq<Call>): Hold {
    if calls == [] then Hold(0, false) else Apply(Run(calls[..|calls| - 1]), calls[|calls| - 1])
  }

  /** The latest deadline any call has set, in real time. */
  ghost function Deadline(calls: seq<Call>): nat {
    if calls == [] then 0
    else
      var last := calls[|calls| - 1];
      Max(Deadline(calls[..|calls| - 1]), if last.AskTransmit? then 0 else last.at + last.Length())
  }

  /** Calls in order, each one within half a turn of the clock of the one before, its hold included. */
  ghost predicate Spaced(calls: seq<Call>) {
    && (forall i :: 0 <= i < |calls| ==> calls[i].Length() < HALF)
    && forall i :: 0 < i < |calls| ==>
         calls[i - 1].at <= calls[i].at && calls[i].at - calls[i - 1].at + calls[i].Length() <= HALF
  }

  /** The flag tells whether the deadline lies ahead of the last call, and then `until` is its reading. */
  ghost predicate Follows(h: Hold, deadline: nat, at: nat) {
    && (h.holding <==> at < deadline)
    && (h.holding ==> h.until == Clock(deadline) && deadline - at < HALF)
  }

  lemma CallFollows(h: Hold, deadline: nat, at: nat, c: Call)
    requires Follows(h, deadline, at)
    requires at <= c.at && c.at - at + c.Length() <= HALF && c.Length() < HALF
    ensures Follows(Apply(h, c), Max(deadline, if c.AskTransmit? then 0 else c.at + c.Length()), c.at)
  {
    var now, later := c.at, c.at + c.Length();
    if h.holding {
      if deadline <= now { ClockDifference(deadline, now); } else { ClockDifference(now, deadline); }
      if deadline <= later { ClockDifference(deadline, later); } else { ClockDifference(later, deadline); }
    }
    if !c.AskTransmit? {
      ClockAdvance(now, c.Length());
      ClockDifference(now, later);
    }
  }

  lemma {:induction false} RunFollows(calls: seq<Call>)
    requires calls != [] && Spaced(calls)
    ensures Follows(Run(calls), Deadline(calls), calls[|calls| - 1].at)
  {
    var n := |calls| - 1;
    if n == 0 {
      assert calls[..0] == [];
      FirstFollows(calls[0]);
    } else {
      RunFollows(calls[..n]);
      CallFollows(Run(calls[..n]), Deadline(calls[..n]), calls[n - 1].at, calls[n]);
    }
  }

  lemma FirstFollows(c: Call)
    requires c.Length() < HALF
    ensures Follows(Apply(Hold(0, false), c), if c.AskTransmit? then 0 else c.at + c.Length(), c.at)
  {
    if !c.AskTransmit? {
      ClockAdvance(c.at, c.Length());
      ClockDifference(c.at, c.at + c.Length());
    }
  }

  /**
   After any run, transmitting is allowed exactly when real time has reached the latest deadline of
   all receptions and transmissions so far, and the remaining time is the distance to it.
   */
  lemma HoldIsLatestDeadline(calls: seq<Call>, at: nat)
    requires Spaced(calls + [AskTransmit(at)])
    ensures Run(calls).MayTransmit(Clock(at)) <==> at >= Deadline(calls)
    ensures Run(calls).RemainingMs(Clock(at)) == Max(Deadline(calls) - at, 0)
  {
    if calls != [] {
      var all := calls + [AskTransmit(at)];
      var n := |calls|;
      assert all[n - 1] == calls[n - 1] && all[n] == AskTransmit(at);
      assert Spaced(calls) by {
        assert forall i :: 0 <= i < n ==> all[i] == calls[i];
      }
      RunFollows(calls);
      AskFollows(Run(calls), Deadline(calls), calls[n - 1].at, at);
    }
  }

  lemma AskFollows(h: Hold, deadline: nat, before: nat, at: nat)
    requires Follows(h, deadline, before) && before <= at <= before + HALF
    ensures h.MayTransmit(Clock(at)) <==> at >= deadline
    ensures h.RemainingMs(Clock(at)) == Max(deadline - at, 0)
  {
    if h.holding {
      if deadline <= at { ClockDifference(deadline, at); } else { ClockDifference(at, deadline); }
    }
  }

  /** A reception holds the channel for its backoff, 250 ms at least; a transmission for 100 ms. */
  lemma HoldLengths(at: nat, backoff: u32, t: nat)
    requires backoff < HALF && at <= t <= at + HALF
    ensures Run([NoteRx(at, backoff)]).MayTransmit(Clock(t)) <==> t >= at + if backoff < 250 then 250 else backoff
    ensures Run([NoteTxDone(at)]).MayTransmit(Clock(t)) <==> t >= at + 100
  {
    var rx, tx := NoteRx(at, backoff), NoteTxDone(at);
    assert [rx][..0] == [] && [tx][..0] == [];
    assert Deadline([rx]) == at + RxHold(backoff) && Deadline([tx]) == at + TX_GAP_MS;
    RunFollows([rx]);
    RunFollows([tx]);
    AskFollows(Run([rx]), Deadline([rx]), at, t);
    AskFollows(Run([tx]), Deadline([tx]), at, t);
    hide Clock, Hold.MayTransmit, Hold.Extend;
  }

  function AskAll(h: Hold, nows: seq<u32>): Hold
    decreases |nows|
  {
    if nows == [] then h else AskAll(h.Ask(nows[0]), nows[1..])
  }

  /** Once a hold has been seen to pass it stays passed, at any later readings of the clock. */
  lemma {:induction false} PassedHoldStaysPassed(h: Hold, seen: u32, nows: seq<u32>, now: u32)
    requires h.MayTransmit(seen)
    ensures AskAll(h.Ask(seen), nows).MayTransmit(now)
    decreases |nows|
  {
    if nows != [] {
      PassedHoldStaysPassed(h.Ask(seen), nows[0], nows[1..], now);
    }
  }

  // ---- The object ----

  class Access {
    var holdUntilMs: u32
    var holding: bool

    function Model(): Hold
      reads this
    {
      Hold(holdUntilMs, holding)
    }

    constructor ()
      ensures Model() == Hold(0, false)
    {
      holdUntilMs, holding := 0, false;
    }

    method Extend(until: u32, now: u32)
      modifies this
      ensures Model() == old(Model()).Extend(until, now)
    {
      if !holding || WrappingSub(until, holdUntilMs) < HALF {
        holdUntilMs := until;
      }
      holding := WrappingSub(holdUntilMs, now) < HALF && holdUntilMs != now;
    }

    method NoteReception(now: u32, backoff: u32)
      modifies this
      ensures Model() == old(Model()).Extend(WrappingAdd(now, RxHold(backoff)), now)
    {
      Extend(WrappingAdd(now, Max(backoff, PEER_TURNAROUND_MS)), now);
    }

    method NoteTransmission(now: u32)
      modifies this
      ensures Model() == old(Model()).Extend(WrappingAdd(now, TX_GAP_MS), now)
    {
      Extend(WrappingAdd(now, TX_GAP_MS), now);
    }

    method MayTransmit(now: u32) returns (r: bool)
      modifies this`holding
      ensures Model() == old(Model()).Ask(now) && r == old(Model()).MayTransmit(now)
    {
      if holding && WrappingSub(now, holdUntilMs) < HALF {
        holding := false;
      }
      r := !holding;
    }

    method Remaining(now: u32) returns (ms: u32)
      modifies this`holding
      ensures Model() == old(Model()).Ask(now) && ms == old(Model()).RemainingMs(now)
    {
      var may := MayTransmit(now);
      ms := if may then 0 else WrappingSub(holdUntilMs, now);
    }
  }
}
