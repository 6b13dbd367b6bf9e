/**
 Fields nobody asked for: every decoder passes over them whole, wherever they stand, and refuses the ones it cannot
 pass over.
 */
module UnknownFields {
  import opened Machine
  import opened Protobuf
  import opened AdminCodec
  import opened AdminSizes
  import opened AdminRoundTrip

  // ---- What passing over a field means ----

  /** Eight bytes under their tag. */
  function EightField(field: nat, body: Bytes): Bytes { Tag(field, 1) + body }

  /** Bytes of a varint that goes on. */
  predicate Unfinished(s: Bytes) { forall i :: 0 <= i < |s| ==> s[i] >= 128 }

  /** A whole field of these wire types changes nothing, whatever the message so far and whatever follows. */
  ghost predicate Ignores<T(!new)>(step: Step<T>, field: nat, wire: nat) {
    && (wire == 0 ==> forall acc: T, v: nat, rest: Bytes | v < U64_SPAN ::
                        Fold(VarintField(field, v) + rest, acc, step) == Fold(rest, acc, step))
    && (wire == 1 ==> forall acc: T, body: Bytes, rest: Bytes | |body| == 8 ::
                        Fold(EightField(field, body) + rest, acc, step) == Fold(rest, acc, step))
    && (wire == 2 ==> forall acc: T, data: Bytes, rest: Bytes | |data| < U32_SPAN ::
                        Fold(BytesField(field, data) + rest, acc, step) == Fold(rest, acc, step))
    && (wire == 5 ==> forall acc: T, v: u32, rest: Bytes ::
                        Fold(Fixed32Field(field, v) + rest, acc, step) == Fold(rest, acc, step))
  }

  /** A field cut short, or of a wire type without a known length, refuses the message. */
  ghost predicate RefusesCut<T(!new)>(step: Step<T>, field: nat, wire: nat) {
    && (wire == 0 ==> forall acc: T, s: Bytes | Unfinished(s) :: Fold(Tag(field, 0) + s, acc, step) == None)
    && (wire == 1 ==> forall acc: T, s: Bytes | |s| < 8 :: Fold(Tag(field, 1) + s, acc, step) == None)
    && (wire == 2 ==> forall acc: T, n: nat, s: Bytes | |s| < n < U64_SPAN ::
                        Fold(Tag(field, 2) + (Varint(n) + s), acc, step) == None)
    && (wire == 5 ==> forall acc: T, s: Bytes | |s| < 4 :: Fold(Tag(field, 5) + s, acc, step) == None)
    && (wire in {3, 4, 6, 7} ==> forall acc: T, s: Bytes :: Fold(Tag(field, wire) + s, acc, step) == None)
  }

  ghost predicate PassesOver<T(!new)>(step: Step<T>, field: nat, wire: nat) {
    Ignores(step, field, wire) && RefusesCut(step, field, wire)
  }

  /** The decoder leaves the field to the skipping code. */
  ghost predicate Leaves<T(!new)>(step: Step<T>, field: nat, wire: nat) {
    forall acc: T, s: Bytes :: step(acc, field, wire, s) == Skip(acc, wire, s)
  }

  // ---- Skipping is passing over ----

  lemma TurnIs<T>(acc: T, step: Step<T>, field: nat, wire: nat, body: Bytes)
    requires 0 < field < 0x2000_0000 && wire < 8
    ensures Fold(Tag(field, wire) + body, acc, step)
            == var next := step(acc, field, wire, body);
               if next.Some? && |next.value.1| < |Tag(field, wire) + body| then Fold(next.value.1, next.value.0, step)
               else None
  {
    var tag := 8 * field + wire;
    assert tag / 8 == field && tag % 8 == wire;
    VarintReadBack(tag, body);
    hide Varint;
  }

  lemma {:induction false} UnfinishedIsRefused(s: Bytes, k: nat)
    requires k <= 9 && Unfinished(s)
    ensures ReadGroups(s, k) == None
    decreases 9 - k
  {
    if s != [] && k < 9 {
      assert Unfinished(s[1..]);
      UnfinishedIsRefused(s[1..], k + 1);
    }
  }

  lemma LongBytesRefused(n: nat, s: Bytes)
    requires |s| < n < U64_SPAN
    ensures ReadBytes(Varint(n) + s) == None
  {
    VarintReadBack(n, s);
    hide Varint;
  }

  lemma SkipsWhole(rest: Bytes)
    ensures forall v: nat | v < U64_SPAN :: SkipField(Varint(v) + rest, 0) == Some(rest)
    ensures forall body: Bytes | |body| == 8 :: SkipField(body + rest, 1) == Some(rest)
    ensures forall data: Bytes | |data| < U32_SPAN :: SkipField(Varint(|data|) + data + rest, 2) == Some(rest)
    ensures forall v: u32 :: SkipField(Le32(v) + rest, 5) == Some(rest)
  {
    forall v: nat | v < U64_SPAN ensures SkipField(Varint(v) + rest, 0) == Some(rest) {
      VarintReadBack(v, rest);
    }
    forall body: Bytes | |body| == 8 ensures SkipField(body + rest, 1) == Some(rest) {
      assert (body + rest)[8..] == rest;
    }
    forall data: Bytes | |data| < U32_SPAN ensures SkipField(Varint(|data|) + data + rest, 2) == Some(rest) {
      BytesReadBack(data, rest);
    }
    forall v: u32 ensures SkipField(Le32(v) + rest, 5) == Some(rest) {
      assert (Le32(v) + rest)[4..] == rest;
    }
  }

  lemma LeftWhole<T>(acc: T, step: Step<T>, field: nat, wire: nat, body: Bytes, rest: Bytes)
    requires 0 < field < 0x2000_0000 && wire < 8
    requires step(acc, field, wire, body + rest) == Some((acc, rest))
    ensures Fold(Tag(field, wire) + body + rest, acc, step) == Fold(rest, acc, step)
  {
    hide Varint;
    TurnIs(acc, step, field, wire, body + rest);
    assert Tag(field, wire) + body + rest == Tag(field, wire) + (body + rest);
    assert |Tag(field, wire)| > 0;
    hide Fold, Tag;
  }

  lemma LeavingIgnores<T(!new)>(step: Step<T>, field: nat, wire: nat)
    requires 0 < field < 0x2000_0000 && wire < 8 && Leaves(step, field, wire)
    ensures Ignores(step, field, wire)
  {
    hide Varint, Fold, SkipField, Le32, Tag;
    if wire == 0 {
      forall acc: T, v: nat, rest: Bytes | v < U64_SPAN
        ensures Fold(VarintField(field, v) + rest, acc, step) == Fold(rest, acc, step)
      {
        SkipsWhole(rest);
        LeftWhole(acc, step, field, 0, Varint(v), rest);
      }
    }
    if wire == 1 {
      forall acc: T, body: Bytes, rest: Bytes | |body| == 8
        ensures Fold(EightField(field, body) + rest, acc, step) == Fold(rest, acc, step)
      {
        SkipsWhole(rest);
        LeftWhole(acc, step, field, 1, body, rest);
      }
    }
    if wire == 2 { LeavingIgnoresBytes(step, field); }
    if wire == 5 {
      forall acc: T, v: u32, rest: Bytes
        ensures Fold(Fixed32Field(field, v) + rest, acc, step) == Fold(rest, acc, step)
      {
        SkipsWhole(rest);
        LeftWhole(acc, step, field, 5, Le32(v), rest);
      }
    }
  }

  lemma LeavingIgnoresBytes<T(!new)>(step: Step<T>, field: nat)
    requires 0 < field < 0x2000_0000 && Leaves(step, field, 2)
    ensures forall acc: T, data: Bytes, rest: Bytes | |data| < U32_SPAN ::
              Fold(BytesField(field, data) + rest, acc, step) == Fold(rest, acc, step)
  {
    hide Varint, Fold, SkipField, Tag;
    forall acc: T, data: Bytes, rest: Bytes | |data| < U32_SPAN
      ensures Fold(BytesField(field, data) + rest, acc, step) == Fold(rest, acc, step)
    {
      SkipsWhole(rest);
      LeftWhole(acc, step, field, 2, Varint(|data|) + data, rest);
    }
  }

  lemma CutIsNotSkipped(s: Bytes)
    ensures Unfinished(s) ==> SkipField(s, 0) == None
    ensures |s| < 8 ==> SkipField(s, 1) == None
    ensures forall n: nat | |s| < n < U64_SPAN :: SkipField(Varint(n) + s, 2) == None
    ensures |s| < 4 ==> SkipField(s, 5) == None
    ensures forall wire | wire in {3, 4, 6, 7} :: SkipField(s, wire) == None
  {
    if Unfinished(s) { UnfinishedIsRefused(s, 0); }
    forall n: nat | |s| < n < U64_SPAN ensures SkipField(Varint(n) + s, 2) == None { LongBytesRefused(n, s); }
  }

  lemma LeavingRefusesCut<T(!new)>(step: Step<T>, field: nat, wire: nat)
    requires 0 < field < 0x2000_0000 && wire < 8 && Leaves(step, field, wire)
    ensures RefusesCut(step, field, wire)
  {
    hide Varint, Fold, SkipField;
    forall acc: T, s: Bytes
      ensures wire in {3, 4, 6, 7} ==> Fold(Tag(field, wire) + s, acc, step) == None
      ensures wire == 0 && Unfinished(s) ==> Fold(Tag(field, 0) + s, acc, step) == None
      ensures wire == 1 && |s| < 8 ==> Fold(Tag(field, 1) + s, acc, step) == None
      ensures wire == 5 && |s| < 4 ==> Fold(Tag(field, 5) + s, acc, step) == None
    {
      TurnIs(acc, step, field, wire, s);
      CutIsNotSkipped(s);
    }
    if wire == 2 {
      forall acc: T, n: nat, s: Bytes | |s| < n < U64_SPAN
        ensures Fold(Tag(field, 2) + (Varint(n) + s), acc, step) == None
      {
        TurnIs(acc, step, field, 2, Varint(n) + s);
        CutIsNotSkipped(s);
      }
    }
  }

  lemma LeavingPassesOver<T(!new)>(step: Step<T>, field: nat, wire: nat)
    requires 0 < field < 0x2000_0000 && wire < 8 && Leaves(step, field, wire)
    ensures PassesOver(step, field, wire)
  {
    LeavingIgnores(step, field, wire);
    LeavingRefusesCut(step, field, wire);
    hide Leaves, Ignores, RefusesCut;
  }

  // ---- Every decoder ----

  /** The fields each decoder asks for; every other one is passed over. */
  lemma ConfigDecodersPassOver(field: nat, wire: nat)
    requires 0 < field < 0x2000_0000 && wire < 8
    ensures !(wire == 0 && field in {1, 2, 7, 8, 10, 105}) ==> PassesOver(LoraStep, field, wire)
    ensures !(wire == 0 && field == 1) ==> PassesOver(DeviceStep, field, wire) && PassesOver(TelemetryStep, field, wire)
    ensures !(wire == 0 && field in {1, 3}) ==> PassesOver(PositionStep, field, wire)
    ensures !(wire == 5 && field in {1, 2}) ==> PassesOver(FixedPositionStep, field, wire)
    ensures !(wire == 2 && field in {1, 2, 3}) && !(wire == 0 && field in {4, 8}) ==>
              PassesOver(SecurityStep, field, wire)
    ensures !(wire == 2 && field in {2, 3}) && !(wire == 5 && field == 4) ==> PassesOver(SettingsStep, field, wire)
  {
    hide PassesOver, Skip;
    if !(wire == 0 && field in {1, 2, 7, 8, 10, 105}) { LeavingPassesOver(LoraStep, field, wire); }
    if !(wire == 0 && field == 1) {
      LeavingPassesOver(DeviceStep, field, wire);
      LeavingPassesOver(TelemetryStep, field, wire);
    }
    if !(wire == 0 && field in {1, 3}) { LeavingPassesOver(PositionStep, field, wire); }
    if !(wire == 5 && field in {1, 2}) { LeavingPassesOver(FixedPositionStep, field, wire); }
    if !(wire == 2 && field in {1, 2, 3}) && !(wire == 0 && field in {4, 8}) {
      LeavingPassesOver(SecurityStep, field, wire);
    }
    if !(wire == 2 && field in {2, 3}) && !(wire == 5 && field == 4) { LeavingPassesOver(SettingsStep, field, wire); }
  }

  lemma MessageDecodersPassOver(field: nat, wire: nat)
    requires 0 < field < 0x2000_0000 && wire < 8
    ensures !(wire == 0 && field in {1, 3}) && !(wire == 2 && field == 2) ==> PassesOver(ChannelStep, field, wire)
    ensures !(wire == 2 && field in {1, 2, 6, 8, 9}) ==> PassesOver(ConfigStep, field, wire)
    ensures !(wire == 2 && field == 6) ==> PassesOver(ModuleStep, field, wire)
    ensures !(wire == 2 && field == 1) && !(wire == 0 && field == 3) ==> PassesOver(MetadataStep, field, wire)
    ensures !(wire == 2 && field in {2, 3, 8}) && !(wire == 0 && field in {5, 6, 7}) ==>
              PassesOver(UserStep, field, wire)
    ensures !AdminAsksFor(field, wire) ==> PassesOver(AdminStep, field, wire)
  {
    hide PassesOver, Skip;
    if !(wire == 0 && field in {1, 3}) && !(wire == 2 && field == 2) { LeavingPassesOver(ChannelStep, field, wire); }
    if !(wire == 2 && field in {1, 2, 6, 8, 9}) { LeavingPassesOver(ConfigStep, field, wire); }
    if !(wire == 2 && field == 6) { LeavingPassesOver(ModuleStep, field, wire); }
    if !(wire == 2 && field == 1) && !(wire == 0 && field == 3) { LeavingPassesOver(MetadataStep, field, wire); }
    if !(wire == 2 && field in {2, 3, 8}) && !(wire == 0 && field in {5, 6, 7}) {
      LeavingPassesOver(UserStep, field, wire);
    }
    if !AdminAsksFor(field, wire) { LeavingPassesOver(AdminStep, field, wire); }
  }

  predicate AdminAsksFor(field: nat, wire: nat) {
    || (wire == 0 && field in {1, 3, 5, 7, 12, 42, 64, 65, 97})
    || (wire == 2 && field in {2, 4, 6, 8, 13, 32, 34, 35, 41, 101})
  }

  /** No field has number zero. */
  lemma FieldZeroRefused<T>(acc: T, step: Step<T>, wire: nat, s: Bytes)
    requires wire < 8
    ensures Fold(Tag(0, wire) + s, acc, step) == None
  {
    VarintReadBack(wire, s);
    hide Varint;
  }

  // ---- Messages with strange fields in them ----

  /** One whole field of any wire type with a known length. */
  ghost predicate WholeField(u: Bytes, field: nat, wire: nat) {
    match wire
    case 0 => exists v: nat :: v < U64_SPAN && u == VarintField(field, v)
    case 1 => exists body: Bytes :: |body| == 8 && u == EightField(field, body)
    case 2 => exists data: Bytes :: |data| < U32_SPAN && u == BytesField(field, data)
    case 5 => exists v: u32 :: u == Fixed32Field(field, v)
    case _ => false
  }

  /** Whole fields that a decoder does not ask for, one after the other. */
  ghost predicate Strange(u: Bytes, asks: (nat, nat) -> bool)
    decreases |u|
  {
    u == []
    || exists head: Bytes, rest: Bytes, field: nat, wire: nat ::
         && u == head + rest && |rest| < |u| && 0 < field < 0x2000_0000 && wire < 8 && !asks(field, wire)
         && WholeField(head, field, wire) && Strange(rest, asks)
  }

  ghost predicate AsksOnly<T(!new)>(step: Step<T>, asks: (nat, nat) -> bool) {
    forall field: nat, wire: nat ::
      0 < field < 0x2000_0000 && wire < 8 && !asks(field, wire) ==> PassesOver(step, field, wire)
  }

  lemma WholeIsIgnored<T(!new)>(u: Bytes, acc: T, step: Step<T>, field: nat, wire: nat)
    requires PassesOver(step, field, wire) && WholeField(u, field, wire)
    ensures Reads(u, acc, acc, step)
  {
    hide Fold, VarintField, BytesField, Fixed32Field, EightField, RefusesCut;
  }

  lemma StrangeReads<T(!new)>(u: Bytes, acc: T, step: Step<T>, asks: (nat, nat) -> bool)
    requires Strange(u, asks) && AsksOnly(step, asks)
    ensures Reads(u, acc, acc, step)
    decreases |u|
  {
    if u == [] {
      NothingReads(acc, step);
    } else {
      var head: Bytes, rest: Bytes, field: nat, wire: nat :|
        && u == head + rest && |rest| < |u| && 0 < field < 0x2000_0000 && wire < 8 && !asks(field, wire)
        && WholeField(head, field, wire) && Strange(rest, asks);
      hide PassesOver, Reads, WholeField;
      StrangeReads(rest, acc, step, asks);
      WholeIsIgnored(head, acc, step, field, wire);
      ReadsThen(head, rest, acc, acc, acc, step);
    }
  }

  lemma ReadsBefore<T(!new)>(bytes: Bytes, acc: T, acc': T, step: Step<T>, rest: Bytes)
    requires Reads(bytes, acc, acc', step)
    ensures Fold(bytes + rest, acc, step) == Fold(rest, acc', step)
  {
    hide Fold;
  }

  /** Strange fields between known ones do not change what a decoder makes of its message. */
  lemma StrangeFieldsChangeNothing<T(!new)>(
    before: Bytes, u: Bytes, after: Bytes, start: T, mid: T, step: Step<T>, asks: (nat, nat) -> bool)
    requires Reads(before, start, mid, step) && Strange(u, asks) && AsksOnly(step, asks)
    ensures Fold(before + u + after, start, step) == Fold(before + after, start, step)
  {
    hide Fold, Strange, AsksOnly, Reads;
    StrangeReads(u, mid, step, asks);
    ReadsBefore(before, start, mid, step, u + after);
    ReadsBefore(u, mid, mid, step, after);
    ReadsBefore(before, start, mid, step, after);
    assert before + u + after == before + (u + after);
  }

  lemma AdminAsksOnly()
    ensures AsksOnly(AdminStep, AdminAsksFor)
  {
    hide PassesOver, AdminAsksFor;
    forall field: nat, wire: nat | 0 < field < 0x2000_0000 && wire < 8 && !AdminAsksFor(field, wire)
      ensures PassesOver(AdminStep, field, wire)
    {
      MessageDecodersPassOver(field, wire);
    }
  }

  /** Every canonical administration message is decoded from its encoding with strange fields anywhere in it. */
  lemma AdminAmongStrangers(m: AdminMessage, first: Bytes, second: Bytes, third: Bytes)
    requires Canonical(m)
    requires Strange(first, AdminAsksFor) && Strange(second, AdminAsksFor) && Strange(third, AdminAsksFor)
    ensures DecodeAdmin(first + PayloadBytes(m.payload) + second + Opt(m.hasPasskey, BytesField(101, m.passkey)) + third)
            == Some(m)
  {
    var a0 := DefaultMessage();
    var a1 := a0.(payload := m.payload);
    var body, key := PayloadBytes(m.payload), Opt(m.hasPasskey, BytesField(101, m.passkey));
    AdminAsksOnly();
    PayloadReads(m.payload);
    PasskeyReads(m.hasPasskey, m.passkey, m.payload);
    hide Fold, Reads, Strange, AsksOnly, PayloadBytes, AdminStep, BytesField, Opt, PayloadOk;
    StrangeReads(first, a0, AdminStep, AdminAsksFor);
    StrangeReads(second, a1, AdminStep, AdminAsksFor);
    StrangeReads(third, m, AdminStep, AdminAsksFor);
    ReadsThen(first, body, a0, a0, a1, AdminStep);
    ReadsThen(first + body, second, a0, a1, a1, AdminStep);
    ReadsThen(first + body + second, key, a0, a1, m, AdminStep);
    ReadsThen(first + body + second + key, third, a0, m, m, AdminStep);
    ReadsAll(first + body + second + key + third, a0, m, AdminStep);
  }
}
