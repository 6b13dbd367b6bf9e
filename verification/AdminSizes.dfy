/** Every value fits the fixed-capacity vector its encoder builds it in. */
module AdminSizes {
  import opened Machine
  import opened Protobuf
  import opened AdminCodec

  const SMALL_CAP: nat := 16
  const LORA_CAP: nat := 64
  const SECURITY_CAP: nat := 200
  const SETTINGS_CAP: nat := 80
  const CHANNEL_CAP: nat := 96
  const MODULE_CAP: nat := 64
  const METADATA_CAP: nat := 64
  const PAYLOAD_CAP: nat := 240

  lemma LoraFits(l: Lora)
    ensures |LoraBytes(l)| <= LORA_CAP
  {
    FieldLengths(1, 1, []);
    FieldLengths(2, l.modemPreset, []);
    FieldLengths(7, l.region, []);
    FieldLengths(8, l.hopLimit, []);
    FieldLengths(10, SignExtend(l.txPower), []);
    FieldLengths(105, 1, []);
  }

  lemma SmallPartsFit(d: Device, p: Position, f: FixedPosition, t: Telemetry)
    ensures |DeviceBytes(d)| <= SMALL_CAP && |PositionBytes(p)| <= SMALL_CAP
    ensures |FixedPositionBytes(f)| <= SMALL_CAP && |TelemetryBytes(t)| <= SMALL_CAP
  {
    FieldLengths(1, d.role, []);
    FieldLengths(1, p.broadcastSecs, []);
    FieldLengths(3, 1, []);
    FieldLengths(2, 0, []);
    FieldLengths(1, t.updateInterval, []);
  }

  lemma SecurityFits(s: Security)
    requires SecurityShape(s)
    ensures |SecurityBytes(s)| <= SECURITY_CAP
  {
    FieldLengths(1, 0, s.publicKey);
    FieldLengths(2, 0, s.privateKey);
    FieldLengths(3, 0, s.adminKeys[0]);
    FieldLengths(3, 0, s.adminKeys[1]);
    FieldLengths(3, 0, s.adminKeys[2]);
    FieldLengths(4, 1, []);
    FieldLengths(8, 1, []);
  }

  lemma SettingsFit(s: ChannelSettings)
    requires SettingsShape(s)
    ensures |SettingsBytes(s)| <= SETTINGS_CAP - 20
  {
    FieldLengths(2, 0, s.psk[..Min(s.pskLen, |s.psk|)]);
    FieldLengths(3, 0, s.name[..Min(s.nameLen, |s.name|)]);
    FieldLengths(4, 0, []);
  }

  lemma ChannelFits(c: Channel)
    requires SettingsShape(c.settings)
    ensures |ChannelBytes(c)| <= CHANNEL_CAP
  {
    SettingsFit(c.settings);
    FieldLengths(1, SignExtend(c.index), []);
    FieldLengths(2, 0, SettingsBytes(c.settings));
    FieldLengths(3, c.role, []);
  }

  lemma ModuleFits(m: ModuleConfig)
    ensures |ModuleBytes(m)| <= MODULE_CAP
  {
    if m.TelemetryModule? {
      FieldLengths(1, m.telemetry.updateInterval, []);
      FieldLengths(6, 0, TelemetryBytes(m.telemetry));
    }
  }

  lemma MetadataFits(m: Metadata)
    requires |m.firmware| == FIRMWARE_MAX
    ensures |MetadataBytes(m)| <= METADATA_CAP
  {
    FieldLengths(1, 0, m.firmware[..Min(m.firmwareLen, |m.firmware|)]);
    FieldLengths(3, m.hwModel, []);
  }

  lemma UserFits(n: u32, u: Identity)
    requires IdentityShape(u)
    ensures |UserBytes(n, u)| <= PAYLOAD_CAP - 40
  {
    FieldLengths(1, 0, NodeId(n));
    FieldLengths(2, 0, u.longName[..Min(u.longNameLen, |u.longName|)]);
    FieldLengths(3, 0, u.shortName[..Min(u.shortNameLen, |u.shortName|)]);
    FieldLengths(5, u.hwModel, []);
    FieldLengths(6, 1, []);
    FieldLengths(7, u.role, []);
    FieldLengths(8, 0, u.publicKey);
  }

  lemma ConfigFits(c: Config)
    requires c.SecurityConfig? ==> SecurityShape(c.security)
    ensures |ConfigBytes(c)| <= PAYLOAD_CAP - 20
  {
    match c
    case NoConfig =>
    case DeviceConfig(d) =>
      FieldLengths(1, d.role, []);
      FieldLengths(1, 0, DeviceBytes(d));
    case PositionConfig(p) =>
      SmallPartsFit(Device(0), p, FixedPosition(0, 0, false, false), Telemetry(0));
      FieldLengths(2, 0, PositionBytes(p));
    case LoraConfig(l) =>
      LoraFits(l);
      FieldLengths(6, 0, LoraBytes(l));
    case SecurityConfig(s) =>
      SecurityFits(s);
      FieldLengths(8, 0, SecurityBytes(s));
    case SessionkeyConfig =>
      FieldLengths(9, 0, []);
  }

  /** A submessage of at most 220 bytes, with its tag and length, under any field number up to 101. */
  lemma SubmessageFits(field: nat, data: Bytes)
    requires field < 2048 && |data| <= PAYLOAD_CAP - 20
    ensures |BytesField(field, data)| <= PAYLOAD_CAP - 16
  {
    FieldLengths(field, 0, data);
  }

  lemma PayloadFits(p: Payload)
    requires PayloadShape(p)
    ensures |PayloadBytes(p)| <= PAYLOAD_CAP - 16
  {
    hide LoraBytes, SecurityBytes, ChannelBytes, ModuleBytes, MetadataBytes, UserBytes, ConfigBytes,
         BytesField, VarintField;
    match p
    case NoPayload =>
    case GetChannelRequest(n) => FieldLengths(1, n, []);
    case GetChannelResponse(c) =>
      ChannelFits(c);
      SubmessageFits(2, ChannelBytes(c));
    case GetOwnerRequest => FieldLengths(3, 1, []);
    case GetOwnerResponse(u) =>
      UserFits(0, u);
      SubmessageFits(4, UserBytes(0, u));
    case SetOwner(u) =>
      UserFits(0, u);
      SubmessageFits(32, UserBytes(0, u));
    case GetConfigRequest(t) => FieldLengths(5, t, []);
    case GetConfigResponse(c) =>
      ConfigFits(c);
      SubmessageFits(6, ConfigBytes(c));
    case GetModuleConfigRequest(t) => FieldLengths(7, t, []);
    case GetModuleConfigResponse(m) =>
      ModuleFits(m);
      SubmessageFits(8, ModuleBytes(m));
    case GetMetadataRequest => FieldLengths(12, 1, []);
    case GetMetadataResponse(m) =>
      MetadataFits(m);
      SubmessageFits(13, MetadataBytes(m));
    case SetConfig(c) =>
      ConfigFits(c);
      SubmessageFits(34, ConfigBytes(c));
    case SetModuleConfig(m) =>
      ModuleFits(m);
      SubmessageFits(35, ModuleBytes(m));
    case SetFixedPosition(f) =>
      SmallPartsFit(Device(0), Position(0, false), f, Telemetry(0));
      SubmessageFits(41, FixedPositionBytes(f));
    case RemoveFixedPosition => FieldLengths(42, 1, []);
    case BeginEdit => FieldLengths(64, 1, []);
    case CommitEdit => FieldLengths(65, 1, []);
    case RebootSeconds(n) => FieldLengths(97, SignExtend(n), []);
  }

  lemma AdminFits(m: AdminMessage)
    requires Shaped(m)
    ensures |AdminBytes(m)| <= PAYLOAD_CAP
  {
    PayloadFits(m.payload);
    FieldLengths(101, 0, m.passkey);
  }
}
