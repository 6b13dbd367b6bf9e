/** The hashed tie-break bit by bit, and the instant a relay is committed to. */
module TieBreaks {
  import opened Machine
  import opened RelayWindow
  import opened BroadcastRelay

  function Bit(n: nat, k: nat): nat {
    if k == 0 then n % 2 else Bit(n / 2, k - 1)
  }

  lemma XorHalves(a: nat, b: nat)
    ensures Xor(a, b) % 2 == (a + b) % 2 && Xor(a, b) / 2 == Xor(a / 2, b / 2)
  {
    if a > 0 || b > 0 {
      var low, high := (a + b) % 2, Xor(a / 2, b / 2);
      assert Xor(a, b) == low + 2 * high;
      hide Xor;
      LowAndHigh(low, high);
    }
  }

  lemma LowAndHigh(low: nat, high: nat)
    requires low < 2
    ensures (low + 2 * high) % 2 == low && (low + 2 * high) / 2 == high
  {
  }

  /** Every bit of the exclusive or is set exactly where the bits differ. */
  lemma {:induction false} XorBits(a: nat, b: nat, k: nat)
    ensures Bit(Xor(a, b), k) == 1 <==> Bit(a, k) != Bit(b, k)
    decreases k
  {
    XorHalves(a, b);
    hide Xor;
    if k > 0 { XorBits(a / 2, b / 2, k - 1); }
  }

  lemma SameParity(a: nat, b: nat, id: nat)
    requires (a + id) % 2 == (b + id) % 2
    ensures a % 2 == b % 2
  {
  }

  /** Two nodes never hash one packet to the same number. */
  lemma {:induction false} NodesDiffer(id: nat, a: nat, b: nat)
    requires Xor(a, id) == Xor(b, id)
    ensures a == b
    decreases a + b + id
  {
    hide Xor;
    if a + b + id > 0 {
      XorHalves(a, id);
      XorHalves(b, id);
      SameParity(a, b, id);
      NodesDiffer(id / 2, a / 2, b / 2);
    }
  }

  /**
   The tie-break is the hash of packet and node, cut to half the half-airtime or 20 ms, plus one: two nodes get
   the same one exactly when their hashes agree there, and these are never equal.
   */
  lemma TieBreakByHash(half: u32, id: u32, a: u32, b: u32)
    ensures var range := if half < 40 then 20 else half / 2;
            && SlotTieBreakMs(half, id, a) == Xor(a, id) % range + 1
            && (SlotTieBreakMs(half, id, a) == SlotTieBreakMs(half, id, b)
                <==> Xor(a, id) % range == Xor(b, id) % range)
            && (Xor(a, id) == Xor(b, id) <==> a == b)
  {
    if Xor(a, id) == Xor(b, id) { NodesDiffer(id, a, b); }
    hide Xor;
  }

  /** The committed instant: the position and the tie-break after now, on the wrapping clock. */
  lemma CommittedAt(r: Ranked, half: u32, id: u32, node: u32, t: nat)
    requires r.delay + SlotTieBreakMs(half, id, node) < U32_SPAN
    ensures CommitAt(r, half, id, node, Clock(t)) == Clock(t + r.delay + SlotTieBreakMs(half, id, node))
  {
    ClockAdvance(t, r.delay + SlotTieBreakMs(half, id, node));
    hide SlotTieBreakMs;
  }

  /** Half a packet's airtime, which spaces the ladder, is never less than fifty milliseconds. */
  lemma SpacingOf(airtime: u32)
    ensures HalfAirtimeMs(airtime) == if airtime < 100 then 50 else airtime / 2
  {
  }
}
