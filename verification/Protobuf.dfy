/**
 The Protocol Buffers wire format the node uses: base-128 varints (the encoding specification's
 "Base 128 Varints"), sign-extended int32 ("Signed Integers"), tagged fields, and the loop every
 message decoder runs.
 */
module Protobuf {
  import opened Machine

  type Bytes = seq<u8>

  const U64_SPAN: int := 0x1_0000_0000_0000_0000

  type i32 = x: int | -0x8000_0000 <= x < 0x8000_0000

  // ---- Writing ----

  function Varint(v: nat): (r: Bytes)
    ensures |r| > 0
  {
    if v < 128 then [v] else [v % 128 + 128] + Varint(v / 128)
  }

  /** A negative int32 is written as its 64-bit two's complement. */
  function SignExtend(v: i32): nat { if v < 0 then v + U64_SPAN else v }

  function Tag(field: nat, wire: nat): Bytes { Varint(8 * field + wire) }

  function VarintField(field: nat, v: nat): Bytes { Tag(field, 0) + Varint(v) }

  function Int32Field(field: nat, v: i32): Bytes { VarintField(field, SignExtend(v)) }

  function BytesField(field: nat, data: Bytes): Bytes { Tag(field, 2) + (Varint(|data|) + data) }

  function Fixed32Field(field: nat, v: u32): Bytes { Tag(field, 5) + Le32(v) }

  // ---- Reading from the front ----

  /** The groups of a varint from group `k` on: at most ten groups, the tenth at most 1. */
  function ReadGroups(s: Bytes, k: nat): (r: Option<(nat, Bytes)>)
    requires k <= 9
    ensures r.Some? ==> |r.value.1| < |s|
    decreases 9 - k
  {
    if s == [] || (k == 9 && s[0] > 1) then None
    else if s[0] < 128 then Some((s[0], s[1..]))
    else if k == 9 then None
    else
      var (v, rest) :- ReadGroups(s[1..], k + 1);
      Some((s[0] as int % 128 + 128 * v, rest))
  }

  function ReadVarint64(s: Bytes): (r: Option<(nat, Bytes)>)
    ensures r.Some? ==> |r.value.1| < |s|
  {
    ReadGroups(s, 0)
  }

  function ReadVarint(s: Bytes): (r: Option<(nat, Bytes)>)
    ensures r.Some? ==> |r.value.1| < |s|
  {
    var (v, rest) :- ReadVarint64(s);
    if v < U32_SPAN then Some((v, rest)) else None
  }

  function Truncate32(v: nat): i32 {
    var low := v % U32_SPAN;
    if low < 0x8000_0000 then low else low - U32_SPAN
  }

  function ReadInt32(s: Bytes): (r: Option<(i32, Bytes)>)
    ensures r.Some? ==> |r.value.1| < |s|
  {
    var (v, rest) :- ReadVarint64(s);
    Some((Truncate32(v), rest))
  }

  function ReadBytes(s: Bytes): (r: Option<(Bytes, Bytes)>)
    ensures r.Some? ==> |r.value.1| < |s|
  {
    var (n, rest) :- ReadVarint(s);
    if n <= |rest| then Some((rest[..n], rest[n..])) else None
  }

  function ReadFixed32(s: Bytes): Option<(u32, Bytes)> {
    if |s| < 4 then None else Some((FromLe32(s[..4]), s[4..]))
  }

  /** Fields nobody asked for are skipped by their wire type. */
  function SkipField(s: Bytes, wire: nat): Option<Bytes> {
    if wire == 0 then
      var (_, rest) :- ReadVarint64(s);
      Some(rest)
    else if wire == 1 then if |s| < 8 then None else Some(s[8..])
    else if wire == 2 then
      var (_, rest) :- ReadBytes(s);
      Some(rest)
    else if wire == 5 then if |s| < 4 then None else Some(s[4..])
    else None
  }

  /** What a message does with one field: the message after it and the bytes after it. */
  type Step<!T> = (T, nat, nat, Bytes) -> Option<(T, Bytes)>

  /** The decoding loop: tag, field, next. (No step returns more bytes than it was given.) */
  function Fold<T>(s: Bytes, acc: T, step: Step<T>): Option<T>
    decreases |s|
  {
    if s == [] then Some(acc)
    else
      var (tag, rest) :- ReadVarint(s);
      if tag / 8 == 0 then None
      else
        var (acc', rest') :- step(acc, tag / 8, tag % 8, rest);
        if |rest'| < |s| then Fold(rest', acc', step) else None
  }

  // ---- What is written is read back ----

  /** The values that fit from group `k` on: below 2^(64 - 7k). */
  function Room(k: nat): nat
    requires k <= 9
    decreases 9 - k
  {
    if k == 9 then 2 else 128 * Room(k + 1)
  }

  lemma {:induction false} GroupsReadBack(v: nat, rest: Bytes, k: nat)
    requires k <= 9 && v < Room(k)
    ensures ReadGroups(Varint(v) + rest, k) == Some((v, rest))
    decreases 9 - k
  {
    var s := Varint(v) + rest;
    if v < 128 {
      assert s[0] == v && s[1..] == rest;
    } else {
      SplitGroup(v, k);
      GroupsReadBack(v / 128, rest, k + 1);
      var byte: u8 := v % 128 + 128;
      assert s[0] == byte && s[1..] == Varint(v / 128) + rest;
      hide Varint, Room;
      assert ReadGroups(s, k) == Some((byte as int % 128 + 128 * (v / 128), rest));
    }
  }

  lemma SplitGroup(v: nat, k: nat)
    requires k <= 9 && 128 <= v < Room(k)
    ensures k < 9 && v / 128 < Room(k + 1)
    ensures (v % 128 + 128) % 128 + 128 * (v / 128) == v
  {
  }

  lemma RoomForAll()
    ensures Room(0) == U64_SPAN
  {
    assert Room(8) == 256 && Room(7) == 128 * 256 && Room(6) == 128 * Room(7) && Room(5) == 128 * Room(6);
    assert Room(4) == 128 * Room(5) && Room(3) == 128 * Room(4) && Room(2) == 128 * Room(3);
    assert Room(1) == 128 * Room(2);
  }

  /** Every 64-bit value is read back from its varint, whatever follows it. */
  lemma VarintReadBack(v: nat, rest: Bytes)
    requires v < U64_SPAN
    ensures ReadVarint64(Varint(v) + rest) == Some((v, rest))
    ensures v < U32_SPAN ==> ReadVarint(Varint(v) + rest) == Some((v, rest))
  {
    RoomForAll();
    GroupsReadBack(v, rest, 0);
  }

  /** Every int32 is read back from its sign-extended varint. */
  lemma Int32ReadBack(v: i32, rest: Bytes)
    ensures ReadInt32(Varint(SignExtend(v)) + rest) == Some((v, rest))
  {
    TruncateExtended(v);
    hide ReadVarint, SignExtend, Truncate32;
    VarintReadBack(SignExtend(v), rest);
  }

  lemma TruncateExtended(v: i32)
    ensures Truncate32(SignExtend(v)) == v
    ensures SignExtend(v) < U64_SPAN
  {
    if v < 0 {
      assert SignExtend(v) == 0xFFFF_FFFF * U32_SPAN + (v + U32_SPAN);
    }
  }

  lemma BytesReadBack(data: Bytes, rest: Bytes)
    requires |data| < U32_SPAN
    ensures ReadBytes(Varint(|data|) + data + rest) == Some((data, rest))
  {
    VarintReadBack(|data|, data + rest);
    assert Varint(|data|) + data + rest == Varint(|data|) + (data + rest);
    assert (data + rest)[..|data|] == data && (data + rest)[|data|..] == rest;
  }

  lemma Fixed32ReadBack(v: u32, rest: Bytes)
    ensures ReadFixed32(Le32(v) + rest) == Some((v, rest))
  {
    LeRoundTrip(v);
    assert (Le32(v) + rest)[..4] == Le32(v) && (Le32(v) + rest)[4..] == rest;
  }

  /** One written field is one turn of the loop. */
  lemma FoldField<T>(acc: T, step: Step<T>, field: nat, wire: nat, body: Bytes, rest: Bytes, acc': T)
    requires 0 < field < 0x1000_0000 && wire < 8
    requires step(acc, field, wire, body + rest) == Some((acc', rest))
    ensures Fold(Tag(field, wire) + body + rest, acc, step) == Fold(rest, acc', step)
  {
    var tag := 8 * field + wire;
    assert tag / 8 == field && tag % 8 == wire;
    assert Tag(field, wire) + body + rest == Varint(tag) + (body + rest);
    hide Varint;
    VarintReadBack(tag, body + rest);
  }

  // ---- Messages as sequences of optional fields ----

  /** A field that is only written when it is present. */
  function Opt(present: bool, field: Bytes): Bytes { if present then field else [] }

  /** Reading these bytes, before anything, takes the message from `acc` to `acc'`. */
  ghost predicate Reads<T(!new)>(bytes: Bytes, acc: T, acc': T, step: Step<T>) {
    forall rest: Bytes :: Fold(bytes + rest, acc, step) == Fold(rest, acc', step)
  }

  lemma ReadsThen<T(!new)>(a: Bytes, b: Bytes, acc: T, mid: T, acc': T, step: Step<T>)
    requires Reads(a, acc, mid, step) && Reads(b, mid, acc', step)
    ensures Reads(a + b, acc, acc', step)
  {
    hide Fold;
    forall rest: Bytes ensures Fold(a + b + rest, acc, step) == Fold(rest, acc', step) {
      assert a + b + rest == a + (b + rest);
      assert Fold(a + (b + rest), acc, step) == Fold(b + rest, mid, step);
    }
  }

  lemma ReadsThenThree<T(!new)>(
      head: Bytes, f: Bytes, g: Bytes, h: Bytes, a: T, b: T, c: T, d: T, e: T, step: Step<T>)
    requires Reads(head, a, b, step) && Reads(f, b, c, step) && Reads(g, c, d, step) && Reads(h, d, e, step)
    ensures Reads(head + f + g + h, a, e, step)
  {
    hide Reads;
    ReadsThen(head, f, a, b, c, step);
    ReadsThen(head + f, g, a, c, d, step);
    ReadsThen(head + f + g, h, a, d, e, step);
  }

  lemma ReadsAll<T(!new)>(bytes: Bytes, acc: T, acc': T, step: Step<T>)
    requires Reads(bytes, acc, acc', step)
    ensures Fold(bytes, acc, step) == Some(acc')
  {
    assert bytes + [] == bytes;
    assert Fold(bytes + [], acc, step) == Fold([], acc', step);
  }

  lemma NothingReads<T(!new)>(acc: T, step: Step<T>)
    ensures Reads([], acc, acc, step)
  {
    forall rest: Bytes ensures Fold([] + rest, acc, step) == Fold(rest, acc, step) {
      assert [] + rest == rest;
    }
  }

  lemma VarintReads<T(!new)>(present: bool, acc: T, step: Step<T>, field: nat, v: nat, acc': T)
    requires 0 < field < 0x1000_0000 && v < U32_SPAN
    requires if present
             then forall s, rest :: ReadVarint(s) == Some((v, rest)) ==> step(acc, field, 0, s) == Some((acc', rest))
             else acc == acc'
    ensures Reads(Opt(present, VarintField(field, v)), acc, acc', step)
  {
    if present {
      forall rest: Bytes ensures Fold(VarintField(field, v) + rest, acc, step) == Fold(rest, acc', step) {
        VarintReadBack(v, rest);
        FoldField(acc, step, field, 0, Varint(v), rest, acc');
      }
    } else {
      NothingReads(acc, step);
    }
  }

  lemma Int32Reads<T(!new)>(present: bool, acc: T, step: Step<T>, field: nat, v: i32, acc': T)
    requires 0 < field < 0x1000_0000
    requires if present
             then forall s, rest :: ReadInt32(s) == Some((v, rest)) ==> step(acc, field, 0, s) == Some((acc', rest))
             else acc == acc'
    ensures Reads(Opt(present, Int32Field(field, v)), acc, acc', step)
  {
    if present {
      forall rest: Bytes ensures Fold(Int32Field(field, v) + rest, acc, step) == Fold(rest, acc', step) {
        Int32ReadBack(v, rest);
        FoldField(acc, step, field, 0, Varint(SignExtend(v)), rest, acc');
      }
    } else {
      NothingReads(acc, step);
    }
  }

  lemma BytesReads<T(!new)>(present: bool, acc: T, step: Step<T>, field: nat, data: Bytes, acc': T)
    requires 0 < field < 0x1000_0000 && |data| < U32_SPAN
    requires if present
             then forall s, rest :: ReadBytes(s) == Some((data, rest)) ==> step(acc, field, 2, s) == Some((acc', rest))
             else acc == acc'
    ensures Reads(Opt(present, BytesField(field, data)), acc, acc', step)
  {
    if present {
      forall rest: Bytes ensures Fold(BytesField(field, data) + rest, acc, step) == Fold(rest, acc', step) {
        BytesReadBack(data, rest);
        FoldField(acc, step, field, 2, Varint(|data|) + data, rest, acc');
      }
    } else {
      NothingReads(acc, step);
    }
  }

  lemma Fixed32Reads<T(!new)>(present: bool, acc: T, step: Step<T>, field: nat, v: u32, acc': T)
    requires 0 < field < 0x1000_0000
    requires if present
             then forall s, rest :: ReadFixed32(s) == Some((v, rest)) ==> step(acc, field, 5, s) == Some((acc', rest))
             else acc == acc'
    ensures Reads(Opt(present, Fixed32Field(field, v)), acc, acc', step)
  {
    if present {
      forall rest: Bytes ensures Fold(Fixed32Field(field, v) + rest, acc, step) == Fold(rest, acc', step) {
        Fixed32ReadBack(v, rest);
        FoldField(acc, step, field, 5, Le32(v), rest, acc');
      }
    } else {
      NothingReads(acc, step);
    }
  }

  // ---- Lengths ----

  /** One byte of tag up to field 15, two up to field 2047. */
  function TagRoom(field: nat): nat { if field < 16 then 1 else 2 }

  lemma FieldLengths(field: nat, v: nat, data: Bytes)
    requires field < 2048
    ensures v < 0x80 ==> |VarintField(field, v)| <= TagRoom(field) + 1
    ensures v < U32_SPAN ==> |VarintField(field, v)| <= TagRoom(field) + 5
    ensures v < U64_SPAN ==> |VarintField(field, v)| <= TagRoom(field) + 10
    ensures forall x: u32 :: |Fixed32Field(field, x)| <= TagRoom(field) + 4
    ensures |data| < 0x80 ==> |BytesField(field, data)| <= TagRoom(field) + 1 + |data|
    ensures |data| < 0x4000 ==> |BytesField(field, data)| <= TagRoom(field) + 2 + |data|
  {
    VarintLengths(8 * field);
    VarintLengths(8 * field + 2);
    VarintLengths(8 * field + 5);
    VarintLengths(v);
    VarintLengths(|data|);
  }

  function Pow128(k: nat): nat { if k == 0 then 1 else 128 * Pow128(k - 1) }

  lemma {:induction false} VarintLength(v: nat, k: nat)
    requires 0 < k && v < Pow128(k)
    ensures |Varint(v)| <= k
  {
    if v >= 128 {
      VarintLength(v / 128, k - 1);
    }
  }

  lemma VarintLengths(v: nat)
    ensures v < 0x80 ==> |Varint(v)| <= 1
    ensures v < 0x4000 ==> |Varint(v)| <= 2
    ensures v < U32_SPAN ==> |Varint(v)| <= 5
    ensures v < U64_SPAN ==> |Varint(v)| <= 10
  {
    assert Pow128(2) == 0x4000 && Pow128(3) == 128 * 0x4000 && Pow128(4) == 128 * Pow128(3);
    assert Pow128(5) == 128 * Pow128(4) && Pow128(6) == 128 * Pow128(5) && Pow128(7) == 128 * Pow128(6);
    assert Pow128(8) == 128 * Pow128(7) && Pow128(9) == 128 * Pow128(8) && Pow128(10) == 128 * Pow128(9);
    if v < 0x4000 { VarintLength(v, 2); }
    if v < U32_SPAN { VarintLength(v, 5); }
    if v < U64_SPAN { VarintLength(v, 10); }
  }

  // ---- The loops, over an index and a bounded vector ----

  /** `read_varint64`: groups accumulated from the lowest, over what is left of the data. */
  method ReadVarint64Loop(data: Bytes) returns (r: Option<(nat, Bytes)>)
    ensures r == ReadVarint64(data)
  {
    var value: nat, scale: nat, k: nat, left := 0, 1, 0, data;
    assert ReadVarint64(data) == Carried(ReadGroups(left, k), value, scale);
    hide ReadGroups, ReadVarint64, AddGroup, Carried;
    while true
      invariant k <= 9
      invariant Carried(ReadGroups(left, k), value, scale) == ReadVarint64(data)
      decreases 9 - k
    {
      GroupStep(left, k, value, scale);
      if left == [] || (k == 9 && left[0] > 1) {
        return None;
      }
      value := AddGroup(value, left[0], scale);
      if left[0] < 128 {
        return Some((value, left[1..]));
      }
      scale, k, left := scale * 128, k + 1, left[1..];
    }
  }

  /** `value |= (byte & 0x7f) << shift`, for a scale above every bit of the value. */
  function AddGroup(value: nat, byte: u8, scale: nat): nat {
    value + (byte as int % 128) * scale
  }

  /** A result with the lower groups added. */
  function Carried(r: Option<(nat, Bytes)>, value: nat, scale: nat): Option<(nat, Bytes)> {
    if r.None? then None else Some((value + r.value.0 * scale, r.value.1))
  }

  lemma GroupStep(s: Bytes, k: nat, value: nat, scale: nat)
    requires k <= 9
    ensures Carried(ReadGroups(s, k), value, scale) ==
            if s == [] || (k == 9 && s[0] > 1) then None
            else if s[0] < 128 then Some((AddGroup(value, s[0], scale), s[1..]))
            else if k == 9 then None
            else Carried(ReadGroups(s[1..], k + 1), AddGroup(value, s[0], scale), scale * 128)
  {
    if s != [] && s[0] >= 128 && k < 9 && ReadGroups(s[1..], k + 1).Some? {
      Distribute(s[0] as int % 128, ReadGroups(s[1..], k + 1).value.0, scale);
    }
  }

  lemma Distribute(low: nat, v: nat, scale: nat)
    ensures (low + 128 * v) * scale == low * scale + v * (scale * 128)
  {
    assert (low + 128 * v) * scale == low * scale + (128 * v) * scale;
    assert (128 * v) * scale == 128 * (v * scale);
    assert v * (scale * 128) == 128 * (v * scale);
  }

  /** `heapless::Vec`: a push onto a full vector is lost; a slice that does not fit is lost whole. */
  datatype Vec = Vec(bytes: Bytes, capacity: nat) {
    predicate Ok() { |bytes| <= capacity }

    function Push(b: u8): Vec {
      if |bytes| < capacity then this.(bytes := bytes + [b]) else this
    }

    function Extend(s: Bytes): Vec {
      if |bytes| + |s| <= capacity then this.(bytes := bytes + s) else this
    }

    /** Room for these bytes, so that none is lost. */
    predicate Fits(s: Bytes) { |bytes| + |s| <= capacity }

    function Plus(s: Bytes): Vec { this.(bytes := bytes + s) }
  }

  method PushVarint(out: Vec, v: nat) returns (r: Vec)
    requires out.Fits(Varint(v))
    ensures r == out.Plus(Varint(v))
  {
    r := out;
    var left := v;
    while true
      invariant r.capacity == out.capacity && r.Fits(Varint(left))
      invariant r.bytes + Varint(left) == out.bytes + Varint(v)
      decreases left
    {
      var byte := left % 128;
      var high := left / 128;
      r := r.Push(if high != 0 then byte + 128 else byte);
      if high == 0 {
        break;
      }
      left := high;
    }
  }

  method PushTag(out: Vec, field: nat, wire: nat) returns (r: Vec)
    requires out.Fits(Tag(field, wire))
    ensures r == out.Plus(Tag(field, wire))
  {
    r := PushVarint(out, 8 * field + wire);
  }

  method PushVarintField(out: Vec, field: nat, v: nat) returns (r: Vec)
    requires out.Fits(VarintField(field, v))
    ensures r == out.Plus(VarintField(field, v))
  {
    r := PushTag(out, field, 0);
    r := PushVarint(r, v);
    assert r.bytes == out.bytes + VarintField(field, v);
  }

  method PushInt32Field(out: Vec, field: nat, v: i32) returns (r: Vec)
    requires out.Fits(Int32Field(field, v))
    ensures r == out.Plus(Int32Field(field, v))
  {
    r := PushVarintField(out, field, SignExtend(v));
  }

  method PushBytesField(out: Vec, field: nat, data: Bytes) returns (r: Vec)
    requires out.Fits(BytesField(field, data))
    ensures r == out.Plus(BytesField(field, data))
  {
    r := PushTag(out, field, 2);
    r := PushVarint(r, |data|);
    r := r.Extend(data);
    assert r.bytes == out.bytes + BytesField(field, data);
  }

  method PushFixed32Field(out: Vec, field: nat, v: u32) returns (r: Vec)
    requires out.Fits(Fixed32Field(field, v))
    ensures r == out.Plus(Fixed32Field(field, v))
  {
    r := PushTag(out, field, 5);
    r := r.Extend(Le32(v));
    assert r.bytes == out.bytes + Fixed32Field(field, v);
  }

  /** The loop of every decoder over what is left of the payload. */
  method DecodeFields<T>(payload: Bytes, default: T, step: Step<T>) returns (r: Option<T>)
    ensures r == Fold(payload, default, step)
  {
    var acc, left := default, payload;
    while left != []
      invariant Fold(left, acc, step) == Fold(payload, default, step)
      decreases |left|
    {
      var tag := ReadVarint64Loop(left);
      if tag.None? || tag.value.0 >= U32_SPAN || tag.value.0 / 8 == 0 {
        return None;
      }
      var next := step(acc, tag.value.0 / 8, tag.value.0 % 8, tag.value.1);
      if next.None? || |next.value.1| >= |left| {
        return None;
      }
      acc, left := next.value.0, next.value.1;
    }
    return Some(acc);
  }
}
