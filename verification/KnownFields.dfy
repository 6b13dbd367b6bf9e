/**
 What each field means to its decoder, on any message so far and for any value: later fields replace earlier ones,
 and values that do not fit are cut, passed over or refused.
 */
module KnownFields {
  import opened Machine
  import opened Protobuf
  import opened AdminCodec
  import opened AdminRoundTrip

  /** A field that refuses the message, whatever follows. */
  ghost predicate Refuses<T(!new)>(bytes: Bytes, acc: T, step: Step<T>) {
    forall rest: Bytes :: Fold(bytes + rest, acc, step) == None
  }

  lemma TooLong(v: nat, rest: Bytes)
    requires U32_SPAN <= v < U64_SPAN
    ensures ReadVarint(Varint(v) + rest) == None
  {
    VarintReadBack(v, rest);
    hide Varint, ReadVarint64;
  }

  lemma VarintTooLong<T(!new)>(acc: T, step: Step<T>, field: nat, v: nat)
    requires 0 < field < 0x1000_0000 && U32_SPAN <= v < U64_SPAN
    requires forall s :: ReadVarint(s) == None ==> step(acc, field, 0, s) == None
    ensures Refuses(VarintField(field, v), acc, step)
  {
    hide Varint, ReadVarint64;
    var tag := 8 * field;
    assert tag / 8 == field && tag % 8 == 0;
    forall rest: Bytes ensures Fold(VarintField(field, v) + rest, acc, step) == None {
      assert VarintField(field, v) + rest == Varint(tag) + (Varint(v) + rest);
      VarintReadBack(tag, Varint(v) + rest);
      TooLong(v, rest);
    }
  }

  /** A radio configuration. */
  lemma LoraFields(l: Lora, v: u32, w: i32)
    ensures Reads(VarintField(1, v), l, l.(usePreset := v != 0), LoraStep)
    ensures Reads(VarintField(2, v), l, l.(modemPreset := v), LoraStep)
    ensures Reads(VarintField(7, v), l, l.(region := v), LoraStep)
    ensures Reads(VarintField(8, v), l, l.(hopLimit := v), LoraStep)
    ensures Reads(VarintField(105, v), l, l.(okToMqtt := v != 0), LoraStep)
    ensures Reads(Int32Field(10, w), l, l.(txPower := w), LoraStep)
  {
    hide Reads, VarintField, Int32Field;
    VarintReads(true, l, LoraStep, 1, v, l.(usePreset := v != 0));
    VarintReads(true, l, LoraStep, 2, v, l.(modemPreset := v));
    VarintReads(true, l, LoraStep, 7, v, l.(region := v));
    VarintReads(true, l, LoraStep, 8, v, l.(hopLimit := v));
    VarintReads(true, l, LoraStep, 105, v, l.(okToMqtt := v != 0));
    Int32Reads(true, l, LoraStep, 10, w, l.(txPower := w));
  }

  lemma LoraRefuses(l: Lora, field: nat, v: nat)
    requires field in {1, 2, 7, 8, 105} && U32_SPAN <= v < U64_SPAN
    ensures Refuses(VarintField(field, v), l, LoraStep)
  {
    VarintTooLong(l, LoraStep, field, v);
  }

  lemma SmallFields(d: Device, t: Telemetry, p: Position, f: FixedPosition, v: u32)
    ensures Reads(VarintField(1, v), d, Device(v), DeviceStep)
    ensures Reads(VarintField(1, v), t, Telemetry(v), TelemetryStep)
    ensures Reads(VarintField(1, v), p, p.(broadcastSecs := v), PositionStep)
    ensures Reads(VarintField(3, v), p, p.(fixed := v != 0), PositionStep)
    ensures var signed := if v < 0x8000_0000 then v else v - 0x1_0000_0000;
            && Reads(Fixed32Field(1, v), f, f.(latitude := signed, hasLatitude := true), FixedPositionStep)
            && Reads(Fixed32Field(2, v), f, f.(longitude := signed, hasLongitude := true), FixedPositionStep)
  {
    hide Reads, VarintField, Fixed32Field;
    VarintReads(true, d, DeviceStep, 1, v, Device(v));
    VarintReads(true, t, TelemetryStep, 1, v, Telemetry(v));
    VarintReads(true, p, PositionStep, 1, v, p.(broadcastSecs := v));
    VarintReads(true, p, PositionStep, 3, v, p.(fixed := v != 0));
    Fixed32Reads(true, f, FixedPositionStep, 1, v, f.(latitude := Truncate32(v), hasLatitude := true));
    Fixed32Reads(true, f, FixedPositionStep, 2, v, f.(longitude := Truncate32(v), hasLongitude := true));
  }

  /** A security configuration: keys of any other length than 32 bytes, and admin keys beyond three, are passed over. */
  lemma SecurityFields(s: Security, data: Bytes, v: u32)
    requires |data| < U32_SPAN && |s.adminKeys| == 3
    ensures var public := if |data| == 32 then s.(publicKey := data, hasPublicKey := true) else s;
            Reads(BytesField(1, data), s, public, SecurityStep)
    ensures var private := if |data| == 32 then s.(privateKey := data, hasPrivateKey := true) else s;
            Reads(BytesField(2, data), s, private, SecurityStep)
    ensures var n := s.adminKeyCount;
            var added := if |data| == 32 && n < 3
                         then s.(adminKeys := s.adminKeys[n := data], adminKeyCount := n + 1) else s;
            Reads(BytesField(3, data), s, added, SecurityStep)
    ensures Reads(VarintField(4, v), s, s.(isManaged := v != 0), SecurityStep)
    ensures Reads(VarintField(8, v), s, s.(adminChannelEnabled := v != 0), SecurityStep)
  {
    var n := s.adminKeyCount;
    hide Reads, VarintField, BytesField;
    BytesReads(true, s, SecurityStep, 1, data, if |data| == 32 then s.(publicKey := data, hasPublicKey := true) else s);
    BytesReads(true, s, SecurityStep, 2, data,
               if |data| == 32 then s.(privateKey := data, hasPrivateKey := true) else s);
    BytesReads(true, s, SecurityStep, 3, data,
               if |data| == 32 && n < 3 then s.(adminKeys := s.adminKeys[n := data], adminKeyCount := n + 1) else s);
    VarintReads(true, s, SecurityStep, 4, v, s.(isManaged := v != 0));
    VarintReads(true, s, SecurityStep, 8, v, s.(adminChannelEnabled := v != 0));
  }

  /** As many of the bytes as fit, over the front of a buffer. */
  function Cut(data: Bytes, buffer: Bytes): Bytes {
    if |data| >= |buffer| then data[..|buffer|] else data + buffer[|data|..]
  }

  lemma CutIs(data: Bytes, buffer: Bytes)
    ensures Overlay(buffer, data) == Cut(data, buffer)
  {
    if |data| >= |buffer| { assert buffer[|buffer|..] == []; } else { assert data[..|data|] == data; }
  }

  lemma ChannelFields(c: Channel, s: ChannelSettings, data: Bytes, v: u32, w: i32)
    requires |data| < U32_SPAN && |s.psk| == 32 && |s.name| == 16
    ensures Reads(BytesField(2, data), s, s.(psk := Cut(data, s.psk), pskLen := Min(|data|, 32)), SettingsStep)
    ensures Reads(BytesField(3, data), s, s.(name := Cut(data, s.name), nameLen := Min(|data|, 16)), SettingsStep)
    ensures Reads(Fixed32Field(4, v), s, s.(id := v, hasId := true), SettingsStep)
    ensures Reads(Int32Field(1, w), c, c.(index := w), ChannelStep)
    ensures Reads(VarintField(3, v), c, c.(role := v), ChannelStep)
    ensures var inner := Fold(data, DefaultSettings(), SettingsStep);
            if inner.Some? then
              Reads(BytesField(2, data), c, c.(settings := inner.value, hasSettings := true), ChannelStep)
            else Refuses(BytesField(2, data), c, ChannelStep)
  {
    CutIs(data, s.psk);
    CutIs(data, s.name);
    hide Reads, VarintField, BytesField, Fixed32Field, Int32Field, Overlay, Fold, Cut;
    BytesReads(true, s, SettingsStep, 2, data, s.(psk := Cut(data, s.psk), pskLen := Min(|data|, 32)));
    BytesReads(true, s, SettingsStep, 3, data, s.(name := Cut(data, s.name), nameLen := Min(|data|, 16)));
    Fixed32Reads(true, s, SettingsStep, 4, v, s.(id := v, hasId := true));
    Int32Reads(true, c, ChannelStep, 1, w, c.(index := w));
    VarintReads(true, c, ChannelStep, 3, v, c.(role := v));
    var inner := Fold(data, DefaultSettings(), SettingsStep);
    if inner.Some? {
      BytesReads(true, c, ChannelStep, 2, data, c.(settings := inner.value, hasSettings := true));
    } else {
      BytesRefused(c, ChannelStep, 2, data);
    }
  }

  lemma BytesRefused<T(!new)>(acc: T, step: Step<T>, field: nat, data: Bytes)
    requires 0 < field < 0x1000_0000 && |data| < U32_SPAN
    requires forall s, rest :: ReadBytes(s) == Some((data, rest)) ==> step(acc, field, 2, s) == None
    ensures Refuses(BytesField(field, data), acc, step)
  {
    forall rest: Bytes ensures Fold(BytesField(field, data) + rest, acc, step) == None {
      var tag := 8 * field + 2;
      assert tag / 8 == field && tag % 8 == 2;
      assert BytesField(field, data) + rest == Varint(tag) + (Varint(|data|) + data + rest);
      VarintReadBack(tag, Varint(|data|) + data + rest);
      BytesReadBack(data, rest);
      hide Varint, ReadBytes;
    }
  }

  /** A user: names and key over the front of their buffers; only a short name makes it one. */
  lemma UserFields(u: User, data: Bytes, v: u32)
    requires |data| < U32_SPAN
    requires |u.identity.longName| == 40 && |u.identity.shortName| == 5 && |u.identity.publicKey| == 32
    ensures var i := u.identity;
            && Reads(BytesField(2, data), u,
                     u.(identity := i.(longName := Cut(data, i.longName), longNameLen := Min(|data|, 40))), UserStep)
            && Reads(BytesField(3, data), u,
                     User(i.(shortName := Cut(data, i.shortName), shortNameLen := Min(|data|, 5)), true), UserStep)
            && Reads(BytesField(8, data), u, u.(identity := i.(publicKey := Cut(data, i.publicKey))), UserStep)
            && Reads(VarintField(5, v), u, u.(identity := i.(hwModel := v)), UserStep)
            && Reads(VarintField(6, v), u, u.(identity := i.(isLicensed := v != 0)), UserStep)
            && Reads(VarintField(7, v), u, u.(identity := i.(role := v)), UserStep)
  {
    var i := u.identity;
    CutIs(data, i.longName);
    CutIs(data, i.shortName);
    CutIs(data, i.publicKey);
    hide Reads, VarintField, BytesField, Overlay, Cut;
    BytesReads(true, u, UserStep, 2, data,
               u.(identity := i.(longName := Cut(data, i.longName), longNameLen := Min(|data|, 40))));
    BytesReads(true, u, UserStep, 3, data,
               User(i.(shortName := Cut(data, i.shortName), shortNameLen := Min(|data|, 5)), true));
    BytesReads(true, u, UserStep, 8, data, u.(identity := i.(publicKey := Cut(data, i.publicKey))));
    VarintReads(true, u, UserStep, 5, v, u.(identity := i.(hwModel := v)));
    VarintReads(true, u, UserStep, 6, v, u.(identity := i.(isLicensed := v != 0)));
    VarintReads(true, u, UserStep, 7, v, u.(identity := i.(role := v)));
  }

  /** A submessage: what its own decoder makes of it, or a refusal of the whole message. */
  ghost predicate Nested<T(!new)>(data: Bytes, field: nat, acc: T, inner: Option<T>, step: Step<T>) {
    if inner.Some? then Reads(BytesField(field, data), acc, inner.value, step)
    else Refuses(BytesField(field, data), acc, step)
  }

  lemma NestedIs<T(!new)>(data: Bytes, field: nat, acc: T, inner: Option<T>, step: Step<T>)
    requires 0 < field < 0x1000_0000 && |data| < U32_SPAN
    requires forall s, rest :: ReadBytes(s) == Some((data, rest)) ==>
               step(acc, field, 2, s) == if inner.Some? then Some((inner.value, rest)) else None
    ensures Nested(data, field, acc, inner, step)
  {
    hide ReadBytes, BytesField;
    if inner.Some? {
      BytesReads(true, acc, step, field, data, inner.value);
    } else {
      BytesRefused(acc, step, field, data);
    }
    hide Reads, Refuses;
  }

  function Mapped<T, U>(x: Option<T>, f: T -> U): Option<U> { if x.None? then None else Some(f(x.value)) }

  /** A configuration: each kind replaces the one before. */
  lemma ConfigFields(c: Config, data: Bytes)
    requires |data| < U32_SPAN
    ensures Nested(data, 1, c, Mapped(Fold(data, Device(0), DeviceStep), d => DeviceConfig(d)), ConfigStep)
    ensures Nested(data, 2, c, Mapped(Fold(data, Position(0, false), PositionStep), p => PositionConfig(p)), ConfigStep)
    ensures Nested(data, 6, c, Mapped(Fold(data, DefaultLora(), LoraStep), l => LoraConfig(l)), ConfigStep)
    ensures Nested(data, 8, c, Mapped(Fold(data, DefaultSecurity(), SecurityStep), s => SecurityConfig(s)), ConfigStep)
    ensures Reads(BytesField(9, data), c, SessionkeyConfig, ConfigStep)
  {
    hide Fold, Reads, BytesField, Nested, ReadBytes;
    NestedIs(data, 1, c, Mapped(Fold(data, Device(0), DeviceStep), d => DeviceConfig(d)), ConfigStep);
    NestedIs(data, 2, c, Mapped(Fold(data, Position(0, false), PositionStep), p => PositionConfig(p)), ConfigStep);
    NestedIs(data, 6, c, Mapped(Fold(data, DefaultLora(), LoraStep), l => LoraConfig(l)), ConfigStep);
    NestedIs(data, 8, c, Mapped(Fold(data, DefaultSecurity(), SecurityStep), s => SecurityConfig(s)), ConfigStep);
    BytesReads(true, c, ConfigStep, 9, data, SessionkeyConfig);
  }

  lemma ModuleFields(m: ModuleConfig, d: Metadata, data: Bytes, v: u32)
    requires |data| < U32_SPAN && |d.firmware| == 32
    ensures Nested(data, 6, m, Mapped(Fold(data, Telemetry(0), TelemetryStep), t => TelemetryModule(t)), ModuleStep)
    ensures Reads(BytesField(1, data), d, d.(firmware := Cut(data, d.firmware), firmwareLen := Min(|data|, 32)),
                  MetadataStep)
    ensures Reads(VarintField(3, v), d, d.(hwModel := v), MetadataStep)
  {
    CutIs(data, d.firmware);
    hide Fold, Reads, BytesField, VarintField, Nested, Overlay, Cut;
    NestedIs(data, 6, m, Mapped(Fold(data, Telemetry(0), TelemetryStep), t => TelemetryModule(t)), ModuleStep);
    BytesReads(true, d, MetadataStep, 1, data, d.(firmware := Cut(data, d.firmware), firmwareLen := Min(|data|, 32)));
    VarintReads(true, d, MetadataStep, 3, v, d.(hwModel := v));
  }

  /** The requests and commands of an administration message; a command with the value zero is none. */
  lemma AdminNumbers(m: AdminMessage, v: u32, w: i32)
    ensures Reads(VarintField(1, v), m, m.(payload := GetChannelRequest(v)), AdminStep)
    ensures Reads(VarintField(5, v), m, m.(payload := GetConfigRequest(v)), AdminStep)
    ensures Reads(VarintField(7, v), m, m.(payload := GetModuleConfigRequest(v)), AdminStep)
    ensures Reads(Int32Field(97, w), m, m.(payload := RebootSeconds(w)), AdminStep)
    ensures Reads(VarintField(3, v), m, if v == 0 then m else m.(payload := GetOwnerRequest), AdminStep)
    ensures Reads(VarintField(12, v), m, if v == 0 then m else m.(payload := GetMetadataRequest), AdminStep)
    ensures Reads(VarintField(42, v), m, if v == 0 then m else m.(payload := RemoveFixedPosition), AdminStep)
    ensures Reads(VarintField(64, v), m, if v == 0 then m else m.(payload := BeginEdit), AdminStep)
    ensures Reads(VarintField(65, v), m, if v == 0 then m else m.(payload := CommitEdit), AdminStep)
  {
    hide Reads, VarintField, Int32Field;
    VarintReads(true, m, AdminStep, 1, v, m.(payload := GetChannelRequest(v)));
    VarintReads(true, m, AdminStep, 5, v, m.(payload := GetConfigRequest(v)));
    VarintReads(true, m, AdminStep, 7, v, m.(payload := GetModuleConfigRequest(v)));
    Int32Reads(true, m, AdminStep, 97, w, m.(payload := RebootSeconds(w)));
    VarintReads(true, m, AdminStep, 3, v, if v == 0 then m else m.(payload := GetOwnerRequest));
    VarintReads(true, m, AdminStep, 12, v, if v == 0 then m else m.(payload := GetMetadataRequest));
    VarintReads(true, m, AdminStep, 42, v, if v == 0 then m else m.(payload := RemoveFixedPosition));
    VarintReads(true, m, AdminStep, 64, v, if v == 0 then m else m.(payload := BeginEdit));
    VarintReads(true, m, AdminStep, 65, v, if v == 0 then m else m.(payload := CommitEdit));
  }

  /** The parts of an administration message; a user without a short name and a passkey of another length are none. */
  lemma AdminParts(m: AdminMessage, data: Bytes)
    requires |data| < U32_SPAN
    ensures Nested(data, 2, m, Mapped(Fold(data, DefaultChannel(), ChannelStep),
                                      c => m.(payload := GetChannelResponse(c))), AdminStep)
    ensures var u := Fold(data, DefaultUser(), UserStep); var named := u.Some? && u.value.hasShort;
            && Reads(BytesField(4, data), m, if named then m.(payload := GetOwnerResponse(u.value.identity)) else m,
                     AdminStep)
            && Reads(BytesField(32, data), m, if named then m.(payload := SetOwner(u.value.identity)) else m, AdminStep)
    ensures Reads(BytesField(101, data), m, if |data| == 8 then m.(passkey := data, hasPasskey := true) else m,
                  AdminStep)
  {
    var u := DecodeUser(data);
    hide Fold, Reads, BytesField, Nested;
    NestedIs(data, 2, m, Mapped(Fold(data, DefaultChannel(), ChannelStep), c => m.(payload := GetChannelResponse(c))),
             AdminStep);
    BytesReads(true, m, AdminStep, 4, data, if u.Some? then m.(payload := GetOwnerResponse(u.value)) else m);
    BytesReads(true, m, AdminStep, 32, data, if u.Some? then m.(payload := SetOwner(u.value)) else m);
    BytesReads(true, m, AdminStep, 101, data, if |data| == 8 then m.(passkey := data, hasPasskey := true) else m);
  }

  lemma AdminConfigs(m: AdminMessage, data: Bytes)
    requires |data| < U32_SPAN
    ensures var c := Fold(data, NoConfig, ConfigStep);
            && Nested(data, 6, m, Mapped(c, x => m.(payload := GetConfigResponse(x))), AdminStep)
            && Nested(data, 34, m, Mapped(c, x => m.(payload := SetConfig(x))), AdminStep)
  {
    hide Fold, Reads, BytesField, Nested, ReadBytes;
    var c := Fold(data, NoConfig, ConfigStep);
    NestedIs(data, 6, m, Mapped(c, x => m.(payload := GetConfigResponse(x))), AdminStep);
    NestedIs(data, 34, m, Mapped(c, x => m.(payload := SetConfig(x))), AdminStep);
  }

  lemma AdminModules(m: AdminMessage, data: Bytes)
    requires |data| < U32_SPAN
    ensures var c := Fold(data, NoModule, ModuleStep);
            && Nested(data, 8, m, Mapped(c, x => m.(payload := GetModuleConfigResponse(x))), AdminStep)
            && Nested(data, 35, m, Mapped(c, x => m.(payload := SetModuleConfig(x))), AdminStep)
  {
    hide Fold, Reads, BytesField, Nested, ReadBytes;
    var c := Fold(data, NoModule, ModuleStep);
    NestedIs(data, 8, m, Mapped(c, x => m.(payload := GetModuleConfigResponse(x))), AdminStep);
    NestedIs(data, 35, m, Mapped(c, x => m.(payload := SetModuleConfig(x))), AdminStep);
  }

  lemma AdminOthers(m: AdminMessage, data: Bytes)
    requires |data| < U32_SPAN
    ensures Nested(data, 13, m, Mapped(Fold(data, DefaultMetadata(), MetadataStep),
                                       x => m.(payload := GetMetadataResponse(x))), AdminStep)
    ensures Nested(data, 41, m, Mapped(Fold(data, FixedPosition(0, 0, false, false), FixedPositionStep),
                                       x => m.(payload := SetFixedPosition(x))), AdminStep)
  {
    hide Fold, Reads, BytesField, Nested, ReadBytes;
    NestedIs(data, 13, m, Mapped(Fold(data, DefaultMetadata(), MetadataStep),
                                 x => m.(payload := GetMetadataResponse(x))), AdminStep);
    NestedIs(data, 41, m, Mapped(Fold(data, FixedPosition(0, 0, false, false), FixedPositionStep),
                                 x => m.(payload := SetFixedPosition(x))), AdminStep);
  }
}
