/** Packet headers on the wire, and what a chain of relays does to them. */
module RelayChain {
  import opened Machine

  const HEADER_LEN: nat := 16

  datatype Header = Header(to: u32, from: u32, id: u32, flags: u8, channel: u8, nextHop: u8, relayNode: u8)

  datatype Parsed = Parsed(
    to: u32, from: u32, id: u32, channel: u8, hopLimit: u8, hopStart: u8, wantAck: bool, viaMqtt: bool,
    nextHop: u8, relayNode: u8)

  /** Hop limit in bits 0-2, the two flags in bits 3 and 4, hop start in bits 5-7. */
  function EncodeFlags(hopLimit: u8, hopStart: u8, wantAck: bool, viaMqtt: bool): u8 {
    hopLimit as int % 8 + (if wantAck then 8 else 0) + (if viaMqtt then 16 else 0) + 32 * (hopStart as int % 8)
  }

  function Parse(h: Header): Parsed {
    var hopStart := h.flags / 32;
    Parsed(h.to, h.from, h.id, h.channel, h.flags % 8, hopStart, h.flags / 8 % 2 == 1, h.flags / 16 % 2 == 1,
           if hopStart == 0 then 0 else h.nextHop, if hopStart == 0 then 0 else h.relayNode)
  }

  function Encode(h: Header): (r: seq<u8>)
    ensures |r| == HEADER_LEN
  {
    Le32(h.to) + Le32(h.from) + Le32(h.id) + [h.flags, h.channel, h.nextHop, h.relayNode]
  }

  function Decode(b: seq<u8>): Option<Header> {
    if |b| < HEADER_LEN then None
    else Some(Header(FromLe32(b[0..4]), FromLe32(b[4..8]), FromLe32(b[8..12]), b[12], b[13], b[14], b[15]))
  }

  /** A header survives the wire, whatever payload follows it. */
  lemma HeaderRoundTrip(h: Header, payload: seq<u8>)
    ensures Decode(Encode(h) + payload) == Some(h)
  {
    var b := Encode(h) + payload;
    assert b[0..4] == Le32(h.to) && b[4..8] == Le32(h.from) && b[8..12] == Le32(h.id);
    LeRoundTrip(h.to);
    LeRoundTrip(h.from);
    LeRoundTrip(h.id);
  }

  /** `relay_hop_fields`: one hop less; a nonzero start below the new limit is raised to it. */
  function RelayHopFields(rx: Parsed): Option<(u8, u8)> {
    if rx.hopLimit == 0 then None
    else
      var hopLimit := rx.hopLimit - 1;
      Some((hopLimit, if rx.hopStart != 0 && rx.hopStart < hopLimit then hopLimit else rx.hopStart))
  }

  /** What a relay decides besides the hop fields. */
  datatype Relay = Relay(node: u32, nextHop: u32, lastHop: bool)

  function RelayHeader(rx: Parsed, r: Relay): Option<Header> {
    if rx.hopLimit == 0 then None
    else
      var (hopLimit, hopStart) := RelayHopFields(rx).value;
      Some(Header(rx.to, rx.from, rx.id, EncodeFlags(hopLimit, hopStart, rx.wantAck, rx.viaMqtt), rx.channel,
                  if r.lastHop then rx.to % 0x100 else if r.nextHop != 0 then r.nextHop % 0x100 else 0,
                  r.node % 0x100))
  }

  /** One relay on the wire: parse the frame, build the header, send the payload on as it is. */
  function RelayFrame(frame: seq<u8>, r: Relay): Option<seq<u8>> {
    var h := Decode(frame);
    if h.None? then None
    else
      var out := RelayHeader(Parse(h.value), r);
      if out.None? then None else Some(Encode(out.value) + frame[HEADER_LEN..])
  }

  /** The frame after a chain of relays, if all of them relay it. */
  function Chain(frame: seq<u8>, relays: seq<Relay>): Option<seq<u8>>
    decreases |relays|
  {
    if relays == [] then Some(frame)
    else
      var before := Chain(frame, relays[..|relays| - 1]);
      if before.None? then None else RelayFrame(before.value, relays[|relays| - 1])
  }

  function HopsAway(hopStart: u8, hopLimit: u8, known: bool): Option<u8> {
    if hopStart == 0 && !known then None
    else if hopStart < hopLimit then None
    else Some(hopStart - hopLimit)
  }

  /** What relays must leave alone. */
  ghost predicate SamePacket(a: Parsed, b: Parsed) {
    && a.to == b.to && a.from == b.from && a.id == b.id && a.channel == b.channel
    && a.wantAck == b.wantAck && a.viaMqtt == b.viaMqtt
  }

  ghost predicate StartCovers(p: Parsed) { p.hopStart == 0 || p.hopStart >= p.hopLimit }

  lemma FlagsReadBack(hopLimit: u8, hopStart: u8, wantAck: bool, viaMqtt: bool)
    requires hopLimit < 8 && hopStart < 8
    ensures var f := EncodeFlags(hopLimit, hopStart, wantAck, viaMqtt);
            && f % 8 == hopLimit && f / 32 == hopStart
            && (f / 8 % 2 == 1 <==> wantAck) && (f / 16 % 2 == 1 <==> viaMqtt)
  {
    var f := EncodeFlags(hopLimit, hopStart, wantAck, viaMqtt);
    var ack, mqtt := if wantAck then 1 else 0, if viaMqtt then 1 else 0;
    assert f == hopLimit as int + 8 * ack + 16 * mqtt + 32 * hopStart as int;
    assert f / 8 == ack + 2 * mqtt + 4 * hopStart as int;
    assert f / 16 == mqtt + 2 * hopStart as int;
  }

  /** One hop, read back from the wire by the next node. */
  lemma OneHop(frame: seq<u8>, r: Relay)
    requires |frame| >= HEADER_LEN
    ensures var p := Parse(Decode(frame).value);
            RelayFrame(frame, r).Some? <==> p.hopLimit > 0
    ensures var p := Parse(Decode(frame).value);
            RelayFrame(frame, r).Some? ==>
              var out := RelayFrame(frame, r).value;
              && |out| == |frame| && out[HEADER_LEN..] == frame[HEADER_LEN..]
              && var q := Parse(Decode(out).value);
                 && SamePacket(p, q) && q.hopLimit == p.hopLimit - 1 && StartCovers(q)
                 && (q.hopStart == 0 <==> p.hopStart == 0)
                 && (StartCovers(p) ==> q.hopStart == p.hopStart)
  {
    var p := Parse(Decode(frame).value);
    if p.hopLimit > 0 {
      var h := RelayHeader(p, r).value;
      HeaderRoundTrip(h, frame[HEADER_LEN..]);
      var (hopLimit, hopStart) := RelayHopFields(p).value;
      FlagsReadBack(hopLimit, hopStart, p.wantAck, p.viaMqtt);
    }
  }

  /**
   Along any chain of relays, every header written to and read from the wire: the chain carries the
   frame exactly when it is no longer than the hop limit, so never further than 7; each hop takes one
   off; identity, flags, channel and payload arrive unchanged; and after the first hop the start is
   zero or covers the limit.
   */
  lemma {:induction false} ChainBudget(frame: seq<u8>, relays: seq<Relay>)
    requires |frame| >= HEADER_LEN
    ensures var p := Parse(Decode(frame).value);
            && p.hopLimit <= 7
            && (Chain(frame, relays).Some? <==> |relays| <= p.hopLimit)
    ensures var p := Parse(Decode(frame).value);
            Chain(frame, relays).Some? ==>
              var out := Chain(frame, relays).value;
              && |out| == |frame| && out[HEADER_LEN..] == frame[HEADER_LEN..]
              && var q := Parse(Decode(out).value);
                 && SamePacket(p, q) && q.hopLimit == p.hopLimit - |relays|
                 && (relays != [] ==> StartCovers(q))
                 && (StartCovers(p) ==> q.hopStart == p.hopStart)
    decreases |relays|
  {
    if relays == [] {
    } else {
      var n := |relays| - 1;
      ChainBudget(frame, relays[..n]);
      var before := Chain(frame, relays[..n]);
      if before.Some? {
        OneHop(before.value, relays[n]);
      }
    }
  }

  /** For a header whose start covers its limit, every hop is counted: `hops_away` grows by one per hop. */
  lemma HopsAwayCounts(frame: seq<u8>, relays: seq<Relay>, known: bool)
    requires |frame| >= HEADER_LEN && Chain(frame, relays).Some?
    requires var p := Parse(Decode(frame).value); HopsAway(p.hopStart, p.hopLimit, known).Some?
    ensures var p := Parse(Decode(frame).value); var q := Parse(Decode(Chain(frame, relays).value).value);
            HopsAway(q.hopStart, q.hopLimit, known) == Some(HopsAway(p.hopStart, p.hopLimit, known).value + |relays|)
  {
    hide Chain, Decode, Parse;
    ChainBudget(frame, relays);
  }

  /** `encode_to` */
  method EncodeTo(h: Header, out: array<u8>)
    requires out.Length == HEADER_LEN
    modifies out
    ensures out[..] == Encode(h)
    ensures Decode(out[..]) == Some(h)
  {
    var to, from, id := Le32(h.to), Le32(h.from), Le32(h.id);
    for i := 0 to 4
      invariant forall j :: 0 <= j < i ==> out[j] == to[j] && out[4 + j] == from[j] && out[8 + j] == id[j]
    {
      out[i], out[4 + i], out[8 + i] := to[i], from[i], id[i];
    }
    out[12], out[13], out[14], out[15] := h.flags, h.channel, h.nextHop, h.relayNode;
    assert out[..] == Encode(h);
    HeaderRoundTrip(h, []);
    assert Encode(h) + [] == Encode(h);
  }
}
