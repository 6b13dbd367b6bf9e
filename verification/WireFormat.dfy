/** The octets of a mesh header and of a varint, and what each relay writes into them. */
module WireFormat {
  import opened Machine
  import opened Protobuf
  import opened RelayChain
  import RadioSlot

  /** Four octets, the least significant first. */
  lemma LeastFirst(n: u32)
    ensures var b := Le32(n);
            b[0] as int + 0x100 * b[1] as int + 0x1_0000 * b[2] as int + 0x100_0000 * b[3] as int == n
  {
    LeRoundTrip(n);
  }

  /** Destination, originator and packet id in four octets each, then flags, channel, next hop and relay. */
  lemma HeaderOctets(h: Header)
    ensures var b := Encode(h);
            && b[..4] == Le32(h.to) && b[4..8] == Le32(h.from) && b[8..12] == Le32(h.id)
            && b[12] == h.flags && b[13] == h.channel && b[14] == h.nextHop && b[15] == h.relayNode
  {
  }

  /** Hop limit in bits 0 to 2, the acknowledgement flag in bit 3, the gateway flag in bit 4, hop start above. */
  lemma FlagOctet(h: Header)
    ensures var p := Parse(h);
            && h.flags == p.hopLimit as int + (if p.wantAck then 8 else 0) + (if p.viaMqtt then 16 else 0)
                          + 32 * p.hopStart as int
            && p.hopLimit < 8 && p.hopStart < 8
            && p.nextHop == (if h.flags < 32 then 0 else h.nextHop)
            && p.relayNode == (if h.flags < 32 then 0 else h.relayNode)
  {
    var f: int := h.flags;
    assert f == f % 8 + 8 * (f / 8) && f / 8 == f / 8 % 2 + 2 * (f / 8 / 2) && f / 8 / 2 == f / 16;
    assert f / 16 == f / 16 % 2 + 2 * (f / 16 / 2) && f / 16 / 2 == f / 32;
  }

  /** The frames of a packet are the ones that cancelling by originator and packet id finds. */
  lemma FrameIsFound(h: Header, payload: seq<u8>)
    ensures RadioSlot.HeaderFromId(Encode(h) + payload) == Some((h.from, h.id))
  {
    var b := Encode(h) + payload;
    assert b[4..8] == Le32(h.from) && b[8..12] == Le32(h.id);
    LeRoundTrip(h.from);
    LeRoundTrip(h.id);
  }

  /** A relay writes its own low octet, the low octet of the next hop, and raises a start below the new limit. */
  lemma RelayedOctets(frame: seq<u8>, r: Relay)
    requires |frame| >= 16 && RelayFrame(frame, r).Some?
    ensures var p := Parse(Decode(frame).value);
            var out := Decode(RelayFrame(frame, r).value).value;
            var q := Parse(out);
            && out.relayNode == r.node % 256
            && out.nextHop == (if r.lastHop then p.to % 256 else r.nextHop % 256)
            && q.hopStart == (if 0 < p.hopStart < p.hopLimit - 1 then p.hopLimit - 1 else p.hopStart)
  {
    var p := Parse(Decode(frame).value);
    var h := RelayHeader(p, r).value;
    assert RelayFrame(frame, r).value == Encode(h) + frame[16..];
    HeaderRoundTrip(h, frame[16..]);
    assert p.hopLimit < 8 && p.hopStart < 8;
    hide Encode, Decode, EncodeFlags, RelayFrame;
    var (hopLimit, hopStart) := RelayHopFields(p).value;
    FlagsReadBack(hopLimit, hopStart, p.wantAck, p.viaMqtt);
  }

  /** A packet that left its source with as many hops as it started with is as far away as it has been relayed. */
  lemma DistanceIsRelays(frame: seq<u8>, relays: seq<Relay>, known: bool)
    requires |frame| >= 16 && Chain(frame, relays).Some?
    requires var p := Parse(Decode(frame).value); p.hopStart == p.hopLimit && (p.hopStart > 0 || known)
    ensures var q := Parse(Decode(Chain(frame, relays).value).value);
            HopsAway(q.hopStart, q.hopLimit, known) == Some(|relays|)
  {
    hide Chain, Decode, Parse;
    ChainBudget(frame, relays);
  }

  /** Without a start, or with a start below the limit, the distance is not known. */
  lemma DistanceUnknown(hopStart: u8, hopLimit: u8, known: bool)
    ensures HopsAway(hopStart, hopLimit, known).None? <==> (hopStart == 0 && !known) || hopStart < hopLimit
  {
  }

  // ---- Varints ----

  /** Seven bits of each octet, the lowest group first. */
  function Groups(s: Bytes): nat {
    if s == [] then 0 else s[0] as int % 128 + 128 * Groups(s[1..])
  }

  /** A varint holds its number in groups of seven bits, all octets but the last marked. */
  lemma {:induction false} VarintOctets(v: nat)
    ensures var s := Varint(v);
            && Groups(s) == v && s[|s| - 1] < 128
            && forall i :: 0 <= i < |s| - 1 ==> s[i] >= 128
  {
    if v < 128 {
      assert Varint(v)[1..] == [];
    } else {
      VarintOctets(v / 128);
      var low: u8 := v % 128 + 128;
      assert Varint(v) == [low] + Varint(v / 128) && Varint(v)[1..] == Varint(v / 128);
      hide Varint;
    }
  }
}
