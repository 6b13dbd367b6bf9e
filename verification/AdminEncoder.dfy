/**
 The encoders, push by push into vectors of fixed capacity, and the decoders' loops. Every value gives exactly
 its format's bytes: no push is lost.
 */
module AdminEncoder {
  import opened Machine
  import opened Protobuf
  import opened AdminCodec
  import opened AdminSizes

  lemma Neutral(s: Bytes)
    ensures s + [] == s && [] + s == s
  {
  }

  method EncodePositionConfig(p: Position) returns (out: Vec)
    ensures out == Vec(PositionBytes(p), SMALL_CAP)
  {
    SmallPartsFit(Device(0), p, FixedPosition(0, 0, false, false), Telemetry(0));
    out := Vec([], SMALL_CAP);
    ghost var f1, f2 := Opt(p.broadcastSecs != 0, VarintField(1, p.broadcastSecs)), Opt(p.fixed, VarintField(3, 1));
    if p.broadcastSecs != 0 {
      out := PushVarintField(out, 1, p.broadcastSecs);
    }
    assert out.bytes == f1;
    if p.fixed {
      out := PushVarintField(out, 3, 1);
    }
    assert out.bytes == f1 + f2;
  }

  method EncodeFixedPosition(p: FixedPosition) returns (out: Vec)
    ensures out == Vec(FixedPositionBytes(p), SMALL_CAP)
  {
    SmallPartsFit(Device(0), Position(0, false), p, Telemetry(0));
    out := Vec([], SMALL_CAP);
    ghost var f1, f2 := Opt(p.hasLatitude, Fixed32Field(1, Bits(p.latitude))),
                        Opt(p.hasLongitude, Fixed32Field(2, Bits(p.longitude)));
    if p.hasLatitude {
      out := PushFixed32Field(out, 1, Bits(p.latitude));
    }
    assert out.bytes == f1;
    if p.hasLongitude {
      out := PushFixed32Field(out, 2, Bits(p.longitude));
    }
    assert out.bytes == f1 + f2;
  }

  method EncodeDeviceConfig(d: Device) returns (out: Vec)
    ensures out == Vec(DeviceBytes(d), SMALL_CAP)
  {
    SmallPartsFit(d, Position(0, false), FixedPosition(0, 0, false, false), Telemetry(0));
    out := Vec([], SMALL_CAP);
    if d.role != 0 {
      out := PushVarintField(out, 1, d.role);
      assert out.bytes == VarintField(1, d.role);
    }
  }

  method EncodeTelemetryConfig(t: Telemetry) returns (out: Vec)
    ensures out == Vec(TelemetryBytes(t), SMALL_CAP)
  {
    SmallPartsFit(Device(0), Position(0, false), FixedPosition(0, 0, false, false), t);
    out := Vec([], SMALL_CAP);
    if t.updateInterval != 0 {
      out := PushVarintField(out, 1, t.updateInterval);
      assert out.bytes == VarintField(1, t.updateInterval);
    }
  }

  method EncodeLoraConfig(l: Lora) returns (out: Vec)
    ensures out == Vec(LoraBytes(l), LORA_CAP)
  {
    LoraFits(l);
    ghost var f1, f2 := Opt(l.usePreset, VarintField(1, 1)), Opt(l.usePreset, VarintField(2, l.modemPreset));
    ghost var f3, f4 := Opt(l.region != 0, VarintField(7, l.region)), VarintField(8, l.hopLimit);
    ghost var f5, f6 := Opt(l.txPower != 0, Int32Field(10, l.txPower)), Opt(l.okToMqtt, VarintField(105, 1));
    ghost var s2 := f1 + f2;
    ghost var s4 := s2 + f3 + f4;
    assert LoraBytes(l) == s4 + f5 + f6;
    hide VarintField, Int32Field, LoraBytes;
    out := Vec([], LORA_CAP);
    if l.usePreset {
      out := PushVarintField(out, 1, 1);
      Neutral(f1);
      out := PushVarintField(out, 2, l.modemPreset);
    }
    assert out.bytes == s2;
    if l.region != 0 {
      out := PushVarintField(out, 7, l.region);
    }
    Neutral(s2);
    assert out.bytes == s2 + f3;
    out := PushVarintField(out, 8, l.hopLimit);
    assert out.bytes == s4;
    if l.txPower != 0 {
      out := PushInt32Field(out, 10, l.txPower);
    }
    Neutral(s4);
    assert out.bytes == s4 + f5;
    if l.okToMqtt {
      out := PushVarintField(out, 105, 1);
    }
    Neutral(s4 + f5);
  }

  /** The admin keys up to the clamped count, as the loop writes them. */
  ghost function KeyFields(keys: seq<Bytes>, n: nat): Bytes
    requires n <= |keys|
  {
    if n == 0 then [] else KeyFields(keys, n - 1) + BytesField(3, keys[n - 1])
  }

  lemma ThreeKeyFields(s: Security, head: Bytes)
    requires SecurityShape(s)
    ensures head + Opt(s.adminKeyCount > 0, BytesField(3, s.adminKeys[0]))
            + Opt(s.adminKeyCount > 1, BytesField(3, s.adminKeys[1]))
            + Opt(s.adminKeyCount > 2, BytesField(3, s.adminKeys[2]))
            == head + KeyFields(s.adminKeys, Min(s.adminKeyCount, MAX_ADMIN_KEYS))
  {
    hide BytesField;
    var n := Min(s.adminKeyCount, MAX_ADMIN_KEYS);
    var k := s.adminKeys;
    assert KeyFields(k, 0) == [];
    assert KeyFields(k, 1) == BytesField(3, k[0]);
    assert KeyFields(k, 2) == BytesField(3, k[0]) + BytesField(3, k[1]);
    assert KeyFields(k, 3) == BytesField(3, k[0]) + BytesField(3, k[1]) + BytesField(3, k[2]);
  }

  lemma KeyFieldsGrow(keys: seq<Bytes>, i: nat, n: nat)
    requires i < n <= |keys|
    ensures KeyFields(keys, i + 1) == KeyFields(keys, i) + BytesField(3, keys[i])
    ensures |KeyFields(keys, i + 1)| <= |KeyFields(keys, n)|
  {
    if i + 1 < n {
      KeyFieldsGrow(keys, i, n - 1);
    }
  }

  lemma NoKeyFields(keys: seq<Bytes>, head: Bytes)
    ensures head + KeyFields(keys, 0) == head
  {
  }

  method PushKeys(into: Vec, keys: seq<Bytes>, count: nat) returns (out: Vec)
    requires count <= |keys| && into.Fits(KeyFields(keys, count))
    ensures out == into.Plus(KeyFields(keys, count))
  {
    out := into;
    NoKeyFields(keys, into.bytes);
    hide BytesField, KeyFields;
    for i := 0 to count
      invariant out == into.Plus(KeyFields(keys, i))
    {
      KeyFieldsGrow(keys, i, count);
      out := PushBytesField(out, 3, keys[i]);
      assert out.bytes == into.bytes + KeyFields(keys, i + 1);
    }
  }

  method PushKeyPair(s: Security) returns (out: Vec)
    requires SecurityShape(s)
    ensures out.capacity == SECURITY_CAP
    ensures out.bytes == Opt(s.hasPublicKey, BytesField(1, s.publicKey)) + Opt(s.hasPrivateKey, BytesField(2, s.privateKey))
  {
    SecurityFits(s);
    hide BytesField;
    out := Vec([], SECURITY_CAP);
    if s.hasPublicKey {
      out := PushBytesField(out, 1, s.publicKey);
    }
    if s.hasPrivateKey {
      out := PushBytesField(out, 2, s.privateKey);
    }
  }

  method EncodeSecurityConfig(s: Security) returns (out: Vec)
    requires SecurityShape(s)
    ensures out == Vec(SecurityBytes(s), SECURITY_CAP)
  {
    SecurityFits(s);
    var count := Min(s.adminKeyCount, MAX_ADMIN_KEYS);
    ghost var head := Opt(s.hasPublicKey, BytesField(1, s.publicKey)) + Opt(s.hasPrivateKey, BytesField(2, s.privateKey));
    ghost var f6, f7 := Opt(s.isManaged, VarintField(4, 1)), Opt(s.adminChannelEnabled, VarintField(8, 1));
    ghost var keys := head + KeyFields(s.adminKeys, count);
    ThreeKeyFields(s, head);
    assert SecurityBytes(s) == keys + f6 + f7;
    hide BytesField, VarintField, SecurityBytes, KeyFields;
    out := PushKeyPair(s);
    out := PushKeys(out, s.adminKeys, count);
    if s.isManaged {
      out := PushVarintField(out, 4, 1);
    }
    Neutral(keys);
    assert out.bytes == keys + f6;
    if s.adminChannelEnabled {
      out := PushVarintField(out, 8, 1);
    }
    Neutral(keys + f6);
  }

  method EncodeChannelSettings(s: ChannelSettings) returns (out: Vec)
    requires SettingsShape(s)
    ensures out == Vec(SettingsBytes(s), SETTINGS_CAP)
  {
    SettingsFit(s);
    ghost var f1 := Opt(s.pskLen > 0, BytesField(2, s.psk[..Min(s.pskLen, |s.psk|)]));
    ghost var f2 := Opt(s.nameLen > 0, BytesField(3, s.name[..Min(s.nameLen, |s.name|)]));
    ghost var f3 := Opt(s.hasId, Fixed32Field(4, s.id));
    assert SettingsBytes(s) == f1 + f2 + f3;
    hide BytesField, Fixed32Field, SettingsBytes;
    out := Vec([], SETTINGS_CAP);
    if s.pskLen > 0 {
      out := PushBytesField(out, 2, s.psk[..Min(s.pskLen, |s.psk|)]);
    }
    assert out.bytes == f1;
    if s.nameLen > 0 {
      out := PushBytesField(out, 3, s.name[..Min(s.nameLen, |s.name|)]);
    }
    assert out.bytes == f1 + f2;
    if s.hasId {
      out := PushFixed32Field(out, 4, s.id);
    }
    Neutral(f1 + f2);
  }

  method EncodeChannel(c: Channel) returns (out: Vec)
    requires SettingsShape(c.settings)
    ensures out == Vec(ChannelBytes(c), CHANNEL_CAP)
  {
    ChannelFits(c);
    ghost var f1 := Opt(c.index != 0, Int32Field(1, c.index));
    ghost var f2 := Opt(c.hasSettings, BytesField(2, SettingsBytes(c.settings)));
    ghost var f3 := Opt(c.role != 0, VarintField(3, c.role));
    assert ChannelBytes(c) == f1 + f2 + f3;
    hide BytesField, VarintField, Int32Field, ChannelBytes;
    out := Vec([], CHANNEL_CAP);
    if c.index != 0 {
      out := PushInt32Field(out, 1, c.index);
    }
    assert out.bytes == f1;
    if c.hasSettings {
      var inner := EncodeChannelSettings(c.settings);
      out := PushBytesField(out, 2, inner.bytes);
    }
    assert out.bytes == f1 + f2;
    if c.role != 0 {
      out := PushVarintField(out, 3, c.role);
    }
    Neutral(f1 + f2);
  }

  method EncodeModuleConfig(m: ModuleConfig) returns (out: Vec)
    ensures out == Vec(ModuleBytes(m), MODULE_CAP)
  {
    ModuleFits(m);
    hide BytesField, TelemetryBytes;
    out := Vec([], MODULE_CAP);
    match m {
      case NoModule =>
      case TelemetryModule(t) =>
        var inner := EncodeTelemetryConfig(t);
        out := PushBytesField(out, 6, inner.bytes);
        Neutral(ModuleBytes(m));
    }
  }

  method EncodeDeviceMetadata(m: Metadata) returns (out: Vec)
    requires |m.firmware| == FIRMWARE_MAX
    ensures out == Vec(MetadataBytes(m), METADATA_CAP)
  {
    MetadataFits(m);
    var version := m.firmware[..Min(m.firmwareLen, |m.firmware|)];
    ghost var f1, f2 := Opt(version != [], BytesField(1, version)), Opt(m.hwModel != 0, VarintField(3, m.hwModel));
    assert MetadataBytes(m) == f1 + f2;
    hide BytesField, VarintField, MetadataBytes;
    out := Vec([], METADATA_CAP);
    if version != [] {
      out := PushBytesField(out, 1, version);
    }
    assert out.bytes == f1;
    if m.hwModel != 0 {
      out := PushVarintField(out, 3, m.hwModel);
    }
    assert out.bytes == f1 + f2;
  }

  /** Up to field 15 a tag is a single byte. */
  lemma ShortTag(field: nat, wire: nat)
    requires field < 16 && wire < 8
    ensures Tag(field, wire) == [8 * field + wire]
  {
  }

  /** The user's encoder pushes its tags as single bytes, without the varint loop. */
  method PushShortTag(into: Vec, field: nat, wire: nat) returns (out: Vec)
    requires field < 16 && wire < 8 && into.Fits(Tag(field, wire))
    ensures out == into.Plus(Tag(field, wire))
  {
    ShortTag(field, wire);
    out := into.Push(8 * field + wire);
  }

  method PushUserBytes(into: Vec, field: nat, data: Bytes) returns (out: Vec)
    requires field < 16 && into.Fits(BytesField(field, data))
    ensures out == into.Plus(BytesField(field, data))
  {
    out := PushShortTag(into, field, 2);
    out := PushVarint(out, |data|);
    out := out.Extend(data);
    assert out.bytes == into.bytes + BytesField(field, data);
  }

  method PushUserVarint(into: Vec, field: nat, v: nat) returns (out: Vec)
    requires field < 16 && into.Fits(VarintField(field, v))
    ensures out == into.Plus(VarintField(field, v))
  {
    out := PushShortTag(into, field, 0);
    out := PushVarint(out, v);
    assert out.bytes == into.bytes + VarintField(field, v);
  }

  method EncodeUser(node: u32, u: Identity) returns (out: Vec)
    requires IdentityShape(u)
    ensures out == Vec(UserBytes(node, u), PAYLOAD_CAP)
  {
    UserFits(node, u);
    out := Vec([], PAYLOAD_CAP);
    if u.longNameLen > |u.longName| || u.shortNameLen > |u.shortName| {
      return;
    }
    var id, long, short := NodeId(node), u.longName[..u.longNameLen], u.shortName[..u.shortNameLen];
    ghost var f1, f2, f3 := BytesField(1, id), BytesField(2, long), BytesField(3, short);
    ghost var f5, f6 := VarintField(5, u.hwModel), Opt(u.isLicensed, VarintField(6, 1));
    ghost var f7, f8 := Opt(u.role != 0, VarintField(7, u.role)), Opt(HasKey(u.publicKey), BytesField(8, u.publicKey));
    assert UserBytes(node, u) == f1 + f2 + f3 + f5 + f6 + f7 + f8;
    hide BytesField, VarintField, UserBytes, NodeId, HasKey;
    out := PushUserBytes(out, 1, id);
    Neutral(f1);
    out := PushUserBytes(out, 2, long);
    out := PushUserBytes(out, 3, short);
    out := PushUserVarint(out, 5, u.hwModel);
    ghost var s1 := f1 + f2 + f3 + f5;
    assert out.bytes == s1;
    if u.isLicensed {
      out := PushUserVarint(out, 6, 1);
    }
    Neutral(s1);
    assert out.bytes == s1 + f6;
    if u.role != 0 {
      out := PushUserVarint(out, 7, u.role);
    }
    Neutral(s1 + f6);
    assert out.bytes == s1 + f6 + f7;
    if HasKey(u.publicKey) {
      out := PushUserBytes(out, 8, u.publicKey);
    }
    Neutral(s1 + f6 + f7);
  }

  /** A submessage pushed into an empty message. */
  method PushInner(field: nat, inner: Bytes) returns (out: Vec)
    requires field < 2048 && |inner| <= PAYLOAD_CAP - 20
    ensures out == Vec(BytesField(field, inner), PAYLOAD_CAP)
  {
    SubmessageFits(field, inner);
    out := PushBytesField(Vec([], PAYLOAD_CAP), field, inner);
    Neutral(BytesField(field, inner));
  }

  method EncodeConfig(c: Config) returns (out: Vec)
    requires c.SecurityConfig? ==> SecurityShape(c.security)
    ensures out == Vec(ConfigBytes(c), PAYLOAD_CAP)
  {
    hide BytesField, DeviceBytes, PositionBytes, LoraBytes, SecurityBytes;
    match c {
      case NoConfig =>
        out := Vec([], PAYLOAD_CAP);
      case DeviceConfig(d) =>
        SmallPartsFit(d, Position(0, false), FixedPosition(0, 0, false, false), Telemetry(0));
        var inner := EncodeDeviceConfig(d);
        out := PushInner(1, inner.bytes);
      case PositionConfig(p) =>
        SmallPartsFit(Device(0), p, FixedPosition(0, 0, false, false), Telemetry(0));
        var inner := EncodePositionConfig(p);
        out := PushInner(2, inner.bytes);
      case LoraConfig(l) =>
        LoraFits(l);
        var inner := EncodeLoraConfig(l);
        out := PushInner(6, inner.bytes);
      case SecurityConfig(s) =>
        SecurityFits(s);
        var inner := EncodeSecurityConfig(s);
        out := PushInner(8, inner.bytes);
      case SessionkeyConfig =>
        out := PushInner(9, []);
    }
  }

  method PushFirstVarint(field: nat, v: u32) returns (out: Vec)
    requires field < 2048
    ensures out == Vec(VarintField(field, v), PAYLOAD_CAP)
  {
    FieldLengths(field, v, []);
    out := PushVarintField(Vec([], PAYLOAD_CAP), field, v);
    Neutral(VarintField(field, v));
  }

  method EncodePayload(p: Payload) returns (out: Vec)
    requires PayloadShape(p)
    ensures out == Vec(PayloadBytes(p), PAYLOAD_CAP)
  {
    hide BytesField, VarintField, ChannelBytes, UserBytes, ConfigBytes, ModuleBytes, MetadataBytes,
         FixedPositionBytes;
    var inner: Vec;
    match p {
      case NoPayload => out := Vec([], PAYLOAD_CAP);
      case GetChannelRequest(n) => out := PushFirstVarint(1, n);
      case GetChannelResponse(c) =>
        ChannelFits(c);
        inner := EncodeChannel(c);
        out := PushInner(2, inner.bytes);
      case GetOwnerRequest => out := PushFirstVarint(3, 1);
      case GetOwnerResponse(u) =>
        UserFits(0, u);
        inner := EncodeUser(0, u);
        out := PushInner(4, inner.bytes);
      case SetOwner(u) =>
        UserFits(0, u);
        inner := EncodeUser(0, u);
        out := PushInner(32, inner.bytes);
      case GetConfigRequest(t) => out := PushFirstVarint(5, t);
      case GetConfigResponse(c) =>
        ConfigFits(c);
        inner := EncodeConfig(c);
        out := PushInner(6, inner.bytes);
      case GetModuleConfigRequest(t) => out := PushFirstVarint(7, t);
      case GetModuleConfigResponse(m) =>
        ModuleFits(m);
        inner := EncodeModuleConfig(m);
        out := PushInner(8, inner.bytes);
      case GetMetadataRequest => out := PushFirstVarint(12, 1);
      case GetMetadataResponse(m) =>
        MetadataFits(m);
        inner := EncodeDeviceMetadata(m);
        out := PushInner(13, inner.bytes);
      case SetConfig(c) =>
        ConfigFits(c);
        inner := EncodeConfig(c);
        out := PushInner(34, inner.bytes);
      case SetModuleConfig(m) =>
        ModuleFits(m);
        inner := EncodeModuleConfig(m);
        out := PushInner(35, inner.bytes);
      case SetFixedPosition(f) =>
        SmallPartsFit(Device(0), Position(0, false), f, Telemetry(0));
        inner := EncodeFixedPosition(f);
        out := PushInner(41, inner.bytes);
      case RemoveFixedPosition => out := PushFirstVarint(42, 1);
      case BeginEdit => out := PushFirstVarint(64, 1);
      case CommitEdit => out := PushFirstVarint(65, 1);
      case RebootSeconds(n) => out := PushReboot(n);
    }
  }

  method PushReboot(n: i32) returns (out: Vec)
    ensures out == Vec(Int32Field(97, n), PAYLOAD_CAP)
  {
    FieldLengths(97, SignExtend(n), []);
    out := PushInt32Field(Vec([], PAYLOAD_CAP), 97, n);
    Neutral(Int32Field(97, n));
  }

  /** The whole message: its payload, then the session passkey. */
  method EncodeAdminMessage(m: AdminMessage) returns (out: Vec)
    requires Shaped(m)
    ensures out == Vec(AdminBytes(m), PAYLOAD_CAP) && |out.bytes| <= out.capacity
  {
    AdminFits(m);
    hide BytesField, PayloadBytes, PayloadShape;
    out := EncodePayload(m.payload);
    if m.hasPasskey {
      out := PushBytesField(out, 101, m.passkey);
    }
    Neutral(PayloadBytes(m.payload));
  }

  method DecodeAdminMessage(payload: Bytes) returns (r: Option<AdminMessage>)
    ensures r == DecodeAdmin(payload)
  {
    r := DecodeFields(payload, DefaultMessage(), AdminStep);
  }

  method DecodeUserMessage(payload: Bytes) returns (r: Option<Identity>)
    ensures r == DecodeUser(payload)
  {
    var u := DecodeFields(payload, DefaultUser(), UserStep);
    if u.None? || !u.value.hasShort {
      return None;
    }
    return Some(u.value.identity);
  }
}
