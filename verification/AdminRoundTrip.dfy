/** Decoding undoes encoding, for every canonical administration message. */
module AdminRoundTrip {
  import opened Machine
  import opened Protobuf
  import opened AdminCodec
  import opened AdminSizes

  // ---- Every part is read back ----

  lemma DeviceReadBack(d: Device)
    ensures Fold(DeviceBytes(d), Device(0), DeviceStep) == Some(d)
  {
    VarintReads(d.role != 0, Device(0), DeviceStep, 1, d.role, d);
    ReadsAll(DeviceBytes(d), Device(0), d, DeviceStep);
  }

  lemma TelemetryReadBack(t: Telemetry)
    ensures Fold(TelemetryBytes(t), Telemetry(0), TelemetryStep) == Some(t)
  {
    VarintReads(t.updateInterval != 0, Telemetry(0), TelemetryStep, 1, t.updateInterval, t);
    ReadsAll(TelemetryBytes(t), Telemetry(0), t, TelemetryStep);
  }

  lemma PositionReadBack(p: Position)
    ensures Fold(PositionBytes(p), Position(0, false), PositionStep) == Some(p)
  {
    var a := Position(p.broadcastSecs, false);
    VarintReads(p.broadcastSecs != 0, Position(0, false), PositionStep, 1, p.broadcastSecs, a);
    VarintReads(p.fixed, a, PositionStep, 3, 1, p);
    ReadsThen(Opt(p.broadcastSecs != 0, VarintField(1, p.broadcastSecs)), Opt(p.fixed, VarintField(3, 1)),
              Position(0, false), a, p, PositionStep);
    ReadsAll(PositionBytes(p), Position(0, false), p, PositionStep);
  }

  lemma LoraReadBack(l: Lora)
    requires LoraOk(l)
    ensures Fold(LoraBytes(l), DefaultLora(), LoraStep) == Some(l)
  {
    var a0 := DefaultLora();
    var a1 := a0.(usePreset := l.usePreset);
    var a2 := a1.(modemPreset := l.modemPreset);
    var a3 := a2.(region := l.region);
    var a4 := a3.(hopLimit := l.hopLimit);
    var a5 := a4.(txPower := l.txPower);
    var f1, f2 := Opt(l.usePreset, VarintField(1, 1)), Opt(l.usePreset, VarintField(2, l.modemPreset));
    var f3, f4 := Opt(l.region != 0, VarintField(7, l.region)), Opt(true, VarintField(8, l.hopLimit));
    var f5, f6 := Opt(l.txPower != 0, Int32Field(10, l.txPower)), Opt(l.okToMqtt, VarintField(105, 1));
    VarintReads(l.usePreset, a0, LoraStep, 1, 1, a1);
    VarintReads(l.usePreset, a1, LoraStep, 2, l.modemPreset, a2);
    VarintReads(l.region != 0, a2, LoraStep, 7, l.region, a3);
    VarintReads(true, a3, LoraStep, 8, l.hopLimit, a4);
    Int32Reads(l.txPower != 0, a4, LoraStep, 10, l.txPower, a5);
    VarintReads(l.okToMqtt, a5, LoraStep, 105, 1, l);
    ReadsThen(f1, f2, a0, a1, a2, LoraStep);
    ReadsThen(f1 + f2, f3, a0, a2, a3, LoraStep);
    ReadsThen(f1 + f2 + f3, f4, a0, a3, a4, LoraStep);
    ReadsThen(f1 + f2 + f3 + f4, f5, a0, a4, a5, LoraStep);
    ReadsThen(f1 + f2 + f3 + f4 + f5, f6, a0, a5, l, LoraStep);
    ReadsAll(LoraBytes(l), a0, l, LoraStep);
  }

  lemma TruncateBits(v: i32)
    ensures Truncate32(Bits(v)) == v
  {
  }

  lemma FixedPositionReadBack(p: FixedPosition)
    requires FixedPositionOk(p)
    ensures Fold(FixedPositionBytes(p), FixedPosition(0, 0, false, false), FixedPositionStep) == Some(p)
  {
    var a0 := FixedPosition(0, 0, false, false);
    var a1 := a0.(latitude := p.latitude, hasLatitude := p.hasLatitude);
    TruncateBits(p.latitude);
    TruncateBits(p.longitude);
    hide Bits, Truncate32;
    Fixed32Reads(p.hasLatitude, a0, FixedPositionStep, 1, Bits(p.latitude), a1);
    Fixed32Reads(p.hasLongitude, a1, FixedPositionStep, 2, Bits(p.longitude), p);
    ReadsThen(Opt(p.hasLatitude, Fixed32Field(1, Bits(p.latitude))),
              Opt(p.hasLongitude, Fixed32Field(2, Bits(p.longitude))), a0, a1, p, FixedPositionStep);
    ReadsAll(FixedPositionBytes(p), a0, p, FixedPositionStep);
  }

  /** The message after the first `n` admin keys. */
  ghost function WithKeys(a: Security, keys: seq<Bytes>, n: nat): Security
    requires |keys| == MAX_ADMIN_KEYS && n <= MAX_ADMIN_KEYS
  {
    a.(adminKeys := seq(MAX_ADMIN_KEYS, i requires 0 <= i < MAX_ADMIN_KEYS =>
                          if i < n then keys[i] else Zeros(KEY_LEN)),
       adminKeyCount := n)
  }

  lemma KeyReads(a: Security, keys: seq<Bytes>, n: nat, i: nat)
    requires |keys| == MAX_ADMIN_KEYS && n <= MAX_ADMIN_KEYS && i < MAX_ADMIN_KEYS && |keys[i]| == KEY_LEN
    ensures Reads(Opt(n > i, BytesField(3, keys[i])), WithKeys(a, keys, Min(i, n)), WithKeys(a, keys, Min(i + 1, n)),
                  SecurityStep)
  {
    var before, after := WithKeys(a, keys, Min(i, n)), WithKeys(a, keys, Min(i + 1, n));
    if n > i {
      assert before.adminKeys[i := keys[i]] == after.adminKeys;
    }
    BytesReads(n > i, before, SecurityStep, 3, keys[i], after);
  }

  ghost function KeysOnly(s: Security): Security {
    DefaultSecurity().(publicKey := s.publicKey, hasPublicKey := s.hasPublicKey,
                       privateKey := s.privateKey, hasPrivateKey := s.hasPrivateKey)
  }

  lemma KeyPairRead(s: Security)
    requires SecurityOk(s)
    ensures Reads(Opt(s.hasPublicKey, BytesField(1, s.publicKey)) + Opt(s.hasPrivateKey, BytesField(2, s.privateKey)),
                  DefaultSecurity(), KeysOnly(s), SecurityStep)
  {
    var a0 := DefaultSecurity();
    var a1 := a0.(publicKey := s.publicKey, hasPublicKey := s.hasPublicKey);
    var f1, f2 := Opt(s.hasPublicKey, BytesField(1, s.publicKey)), Opt(s.hasPrivateKey, BytesField(2, s.privateKey));
    BytesReads(s.hasPublicKey, a0, SecurityStep, 1, s.publicKey, a1);
    BytesReads(s.hasPrivateKey, a1, SecurityStep, 2, s.privateKey, KeysOnly(s));
    ReadsThen(f1, f2, a0, a1, KeysOnly(s), SecurityStep);
  }

  lemma FlagsRead(s: Security)
    requires SecurityOk(s)
    ensures
      var a := s.(isManaged := false, adminChannelEnabled := false);
      var b := a.(isManaged := s.isManaged);
      && Reads(Opt(s.isManaged, VarintField(4, 1)), a, b, SecurityStep)
      && Reads(Opt(s.adminChannelEnabled, VarintField(8, 1)), b, s, SecurityStep)
  {
    var a := s.(isManaged := false, adminChannelEnabled := false);
    var b := a.(isManaged := s.isManaged);
    VarintReads(s.isManaged, a, SecurityStep, 4, 1, b);
    VarintReads(s.adminChannelEnabled, b, SecurityStep, 8, 1, s);
  }

  lemma KeyEnds(s: Security)
    requires SecurityOk(s)
    ensures WithKeys(KeysOnly(s), s.adminKeys, 0) == KeysOnly(s)
    ensures WithKeys(KeysOnly(s), s.adminKeys, s.adminKeyCount) == s.(isManaged := false, adminChannelEnabled := false)
  {
    assert WithKeys(KeysOnly(s), s.adminKeys, 0).adminKeys == KeysOnly(s).adminKeys;
    assert WithKeys(KeysOnly(s), s.adminKeys, s.adminKeyCount).adminKeys == s.adminKeys;
  }

  ghost function KeysDone(s: Security): Security { s.(isManaged := false, adminChannelEnabled := false) }

  lemma AdminKeysRead(s: Security, head: Bytes)
    requires SecurityOk(s) && Reads(head, DefaultSecurity(), KeysOnly(s), SecurityStep)
    ensures Reads(head + Opt(s.adminKeyCount > 0, BytesField(3, s.adminKeys[0]))
                  + Opt(s.adminKeyCount > 1, BytesField(3, s.adminKeys[1]))
                  + Opt(s.adminKeyCount > 2, BytesField(3, s.adminKeys[2])),
                  DefaultSecurity(), KeysDone(s), SecurityStep)
  {
    var keys, n := s.adminKeys, s.adminKeyCount;
    hide Fold, Reads, BytesField, Opt;
    KeyReads(KeysOnly(s), keys, n, 0);
    KeyReads(KeysOnly(s), keys, n, 1);
    KeyReads(KeysOnly(s), keys, n, 2);
    KeyEnds(s);
    hide *;
    ReadsThenThree(head, Opt(n > 0, BytesField(3, keys[0])), Opt(n > 1, BytesField(3, keys[1])),
                   Opt(n > 2, BytesField(3, keys[2])), DefaultSecurity(), WithKeys(KeysOnly(s), keys, Min(0, n)),
                   WithKeys(KeysOnly(s), keys, Min(1, n)), WithKeys(KeysOnly(s), keys, Min(2, n)),
                   WithKeys(KeysOnly(s), keys, Min(3, n)), SecurityStep);
  }

  lemma SecurityReadBack(s: Security)
    requires SecurityOk(s)
    ensures Fold(SecurityBytes(s), DefaultSecurity(), SecurityStep) == Some(s)
  {
    var a0 := DefaultSecurity();
    var head := Opt(s.hasPublicKey, BytesField(1, s.publicKey)) + Opt(s.hasPrivateKey, BytesField(2, s.privateKey));
    var keys := head + Opt(s.adminKeyCount > 0, BytesField(3, s.adminKeys[0]))
                + Opt(s.adminKeyCount > 1, BytesField(3, s.adminKeys[1]))
                + Opt(s.adminKeyCount > 2, BytesField(3, s.adminKeys[2]));
    var f6, f7 := Opt(s.isManaged, VarintField(4, 1)), Opt(s.adminChannelEnabled, VarintField(8, 1));
    assert SecurityBytes(s) == keys + f6 + f7;
    hide SecurityBytes, DefaultSecurity, SecurityStep, Fold, Reads, BytesField, VarintField, Opt;
    KeyPairRead(s);
    AdminKeysRead(s, head);
    FlagsRead(s);
    var b := KeysDone(s).(isManaged := s.isManaged);
    ReadsThen(keys, f6, a0, KeysDone(s), b, SecurityStep);
    ReadsThen(keys + f6, f7, a0, b, s, SecurityStep);
    ReadsAll(SecurityBytes(s), a0, s, SecurityStep);
  }

  /** The used front of a buffer, copied over a zeroed buffer, is the buffer. */
  lemma OverlayFilled(buffer: Bytes, used: nat)
    requires Filled(buffer, used)
    ensures Overlay(Zeros(|buffer|), buffer[..used]) == buffer
  {
    assert buffer == buffer[..used] + buffer[used..];
    assert Zeros(|buffer|)[used..] == Zeros(|buffer| - used);
  }

  lemma SettingsReadBack(s: ChannelSettings)
    requires SettingsOk(s)
    ensures Fold(SettingsBytes(s), DefaultSettings(), SettingsStep) == Some(s)
  {
    var a0 := DefaultSettings();
    var a1 := a0.(psk := s.psk, pskLen := s.pskLen);
    var a2 := a1.(name := s.name, nameLen := s.nameLen);
    OverlayFilled(s.psk, s.pskLen);
    OverlayFilled(s.name, s.nameLen);
    assert s.pskLen == 0 ==> s.psk[0..] == s.psk;
    assert s.nameLen == 0 ==> s.name[0..] == s.name;
    hide Overlay, Filled;
    var f1 := Opt(s.pskLen > 0, BytesField(2, s.psk[..s.pskLen]));
    var f2 := Opt(s.nameLen > 0, BytesField(3, s.name[..s.nameLen]));
    var f3 := Opt(s.hasId, Fixed32Field(4, s.id));
    BytesReads(s.pskLen > 0, a0, SettingsStep, 2, s.psk[..s.pskLen], a1);
    BytesReads(s.nameLen > 0, a1, SettingsStep, 3, s.name[..s.nameLen], a2);
    Fixed32Reads(s.hasId, a2, SettingsStep, 4, s.id, s);
    ReadsThen(f1, f2, a0, a1, a2, SettingsStep);
    ReadsThen(f1 + f2, f3, a0, a2, s, SettingsStep);
    ReadsAll(SettingsBytes(s), a0, s, SettingsStep);
  }

  lemma ChannelReadBack(c: Channel)
    requires ChannelOk(c)
    ensures Fold(ChannelBytes(c), DefaultChannel(), ChannelStep) == Some(c)
  {
    var a0 := DefaultChannel();
    var a1 := a0.(index := c.index);
    var a2 := a1.(settings := c.settings, hasSettings := c.hasSettings);
    var inner := SettingsBytes(c.settings);
    SettingsFit(c.settings);
    SettingsReadBack(c.settings);
    hide SettingsBytes, SettingsStep, SettingsOk, DefaultSettings, Fold;
    var f1, f2 := Opt(c.index != 0, Int32Field(1, c.index)), Opt(c.hasSettings, BytesField(2, inner));
    var f3 := Opt(c.role != 0, VarintField(3, c.role));
    Int32Reads(c.index != 0, a0, ChannelStep, 1, c.index, a1);
    BytesReads(c.hasSettings, a1, ChannelStep, 2, inner, a2);
    VarintReads(c.role != 0, a2, ChannelStep, 3, c.role, c);
    ReadsThen(f1, f2, a0, a1, a2, ChannelStep);
    ReadsThen(f1 + f2, f3, a0, a2, c, ChannelStep);
    ReadsAll(ChannelBytes(c), a0, c, ChannelStep);
  }

  lemma MetadataReadBack(m: Metadata)
    requires MetadataOk(m)
    ensures Fold(MetadataBytes(m), DefaultMetadata(), MetadataStep) == Some(m)
  {
    var a0 := DefaultMetadata();
    var a1 := a0.(firmware := m.firmware, firmwareLen := m.firmwareLen);
    var version := m.firmware[..m.firmwareLen];
    OverlayFilled(m.firmware, m.firmwareLen);
    assert m.firmwareLen == 0 ==> m.firmware[0..] == m.firmware;
    hide Overlay, Filled;
    BytesReads(version != [], a0, MetadataStep, 1, version, a1);
    VarintReads(m.hwModel != 0, a1, MetadataStep, 3, m.hwModel, m);
    ReadsThen(Opt(version != [], BytesField(1, version)), Opt(m.hwModel != 0, VarintField(3, m.hwModel)),
              a0, a1, m, MetadataStep);
    ReadsAll(MetadataBytes(m), a0, m, MetadataStep);
  }

  lemma ModuleReadBack(m: ModuleConfig)
    ensures Fold(ModuleBytes(m), NoModule, ModuleStep) == Some(m)
  {
    if m.TelemetryModule? {
      var inner := TelemetryBytes(m.telemetry);
      TelemetryReadBack(m.telemetry);
      SmallPartsFit(Device(0), Position(0, false), FixedPosition(0, 0, false, false), m.telemetry);
      BytesReads(true, NoModule, ModuleStep, 6, inner, m);
      ReadsAll(ModuleBytes(m), NoModule, m, ModuleStep);
    }
  }

  /** One submessage of a configuration. */
  lemma ConfigPartReadBack(field: nat, inner: Bytes, c: Config)
    requires field in {1, 2, 6, 8, 9} && |inner| < U32_SPAN
    requires ConfigShape(c) && ConfigBytes(c) == BytesField(field, inner)
    requires forall s, rest :: ReadBytes(s) == Some((inner, rest)) ==> ConfigStep(NoConfig, field, 2, s) == Some((c, rest))
    ensures Fold(ConfigBytes(c), NoConfig, ConfigStep) == Some(c)
  {
    hide ConfigBytes, ConfigStep, ReadBytes;
    BytesReads(true, NoConfig, ConfigStep, field, inner, c);
    ReadsAll(ConfigBytes(c), NoConfig, c, ConfigStep);
  }

  lemma ConfigReadBack(c: Config)
    requires ConfigOk(c)
    ensures Fold(ConfigBytes(c), NoConfig, ConfigStep) == Some(c)
  {
    hide Fold, ReadBytes, BytesField, DefaultLora, DefaultSecurity;
    match c
    case NoConfig => NothingReads(NoConfig, ConfigStep); ReadsAll([], NoConfig, NoConfig, ConfigStep);
    case DeviceConfig(d) =>
      DeviceReadBack(d);
      SmallPartsFit(d, Position(0, false), FixedPosition(0, 0, false, false), Telemetry(0));
      ConfigPartReadBack(1, DeviceBytes(d), c);
    case PositionConfig(p) =>
      PositionReadBack(p);
      SmallPartsFit(Device(0), p, FixedPosition(0, 0, false, false), Telemetry(0));
      ConfigPartReadBack(2, PositionBytes(p), c);
    case LoraConfig(l) =>
      LoraReadBack(l);
      LoraFits(l);
      ConfigPartReadBack(6, LoraBytes(l), c);
    case SecurityConfig(s) =>
      SecurityReadBack(s);
      SecurityFits(s);
      ConfigPartReadBack(8, SecurityBytes(s), c);
    case SessionkeyConfig =>
      ConfigPartReadBack(9, [], c);
  }

  /** A key that is not written is all zero. */
  lemma NoKeyIsZero(key: Bytes)
    requires |key| == KEY_LEN && !HasKey(key)
    ensures key == Zeros(KEY_LEN)
  {
  }

  lemma NamesRead(n: u32, i: Identity)
    requires IdentityOk(i)
    ensures
      Reads(BytesField(1, NodeId(n)) + BytesField(2, i.longName[..i.longNameLen])
            + BytesField(3, i.shortName[..i.shortNameLen]),
            DefaultUser(),
            User(DefaultUser().identity.(longName := i.longName, longNameLen := i.longNameLen,
                                         shortName := i.shortName, shortNameLen := i.shortNameLen), true),
            UserStep)
  {
    var a0 := DefaultUser();
    var a1 := a0.(identity := a0.identity.(longName := i.longName, longNameLen := i.longNameLen));
    var a2 := User(a1.identity.(shortName := i.shortName, shortNameLen := i.shortNameLen), true);
    var long, short := i.longName[..i.longNameLen], i.shortName[..i.shortNameLen];
    OverlayFilled(i.longName, i.longNameLen);
    OverlayFilled(i.shortName, i.shortNameLen);
    hide Overlay, Filled, NodeId;
    BytesReads(true, a0, UserStep, 1, NodeId(n), a0);
    BytesReads(true, a0, UserStep, 2, long, a1);
    BytesReads(true, a1, UserStep, 3, short, a2);
    ReadsThen(BytesField(1, NodeId(n)), BytesField(2, long), a0, a0, a1, UserStep);
    ReadsThen(BytesField(1, NodeId(n)) + BytesField(2, long), BytesField(3, short), a0, a1, a2, UserStep);
  }

  lemma RoleRead(i: Identity)
    requires IdentityOk(i)
    ensures
      var a := User(DefaultUser().identity.(longName := i.longName, longNameLen := i.longNameLen,
                                            shortName := i.shortName, shortNameLen := i.shortNameLen), true);
      var b := a.(identity := a.identity.(hwModel := i.hwModel));
      var c := b.(identity := b.identity.(isLicensed := i.isLicensed));
      var d := c.(identity := c.identity.(role := i.role));
      && Reads(VarintField(5, i.hwModel), a, b, UserStep)
      && Reads(Opt(i.isLicensed, VarintField(6, 1)), b, c, UserStep)
      && Reads(Opt(i.role != 0, VarintField(7, i.role)), c, d, UserStep)
      && Reads(Opt(HasKey(i.publicKey), BytesField(8, i.publicKey)), d, User(i, true), UserStep)
  {
    var a := User(DefaultUser().identity.(longName := i.longName, longNameLen := i.longNameLen,
                                          shortName := i.shortName, shortNameLen := i.shortNameLen), true);
    var b := a.(identity := a.identity.(hwModel := i.hwModel));
    var c := b.(identity := b.identity.(isLicensed := i.isLicensed));
    var d := c.(identity := c.identity.(role := i.role));
    var key := i.publicKey;
    if !HasKey(key) { NoKeyIsZero(key); }
    assert Overlay(Zeros(KEY_LEN), key) == key;
    hide HasKey, Filled, Overlay;
    VarintReads(true, a, UserStep, 5, i.hwModel, b);
    VarintReads(i.isLicensed, b, UserStep, 6, 1, c);
    VarintReads(i.role != 0, c, UserStep, 7, i.role, d);
    BytesReads(HasKey(key), d, UserStep, 8, key, User(i, true));
  }

  /** The node number written with a user is not read back: the decoder skips it. */
  lemma UserReadBack(n: u32, i: Identity)
    requires IdentityOk(i)
    ensures DecodeUser(UserBytes(n, i)) == Some(i)
  {
    var a := User(DefaultUser().identity.(longName := i.longName, longNameLen := i.longNameLen,
                                          shortName := i.shortName, shortNameLen := i.shortNameLen), true);
    var b := a.(identity := a.identity.(hwModel := i.hwModel));
    var c := b.(identity := b.identity.(isLicensed := i.isLicensed));
    var d := c.(identity := c.identity.(role := i.role));
    var names := BytesField(1, NodeId(n)) + BytesField(2, i.longName[..i.longNameLen])
                 + BytesField(3, i.shortName[..i.shortNameLen]);
    var f5, f6 := VarintField(5, i.hwModel), Opt(i.isLicensed, VarintField(6, 1));
    var f7, f8 := Opt(i.role != 0, VarintField(7, i.role)), Opt(HasKey(i.publicKey), BytesField(8, i.publicKey));
    assert UserBytes(n, i) == names + f5 + f6 + f7 + f8;
    NamesRead(n, i);
    RoleRead(i);
    hide UserStep, UserBytes, Fold, Reads, BytesField, VarintField, Opt, NodeId, HasKey;
    ReadsThen(names, f5, DefaultUser(), a, b, UserStep);
    ReadsThenThree(names + f5, f6, f7, f8, DefaultUser(), b, c, d, User(i, true), UserStep);
    ReadsAll(UserBytes(n, i), DefaultUser(), User(i, true), UserStep);
  }

  /** A payload carried by one varint field. */
  lemma VarintPayloadReads(p: Payload, field: nat, v: u32)
    requires field in {1, 3, 5, 7, 12, 42, 64, 65} && VarintPayload(field, v, NoPayload) == p
    ensures Reads(VarintField(field, v), DefaultMessage(), DefaultMessage().(payload := p), AdminStep)
  {
    var a := DefaultMessage();
    hide Reads, VarintPayload;
    VarintReads(true, a, AdminStep, field, v, a.(payload := p));
  }

  /** A payload carried by one submessage. */
  lemma SubmessageReads(p: Payload, field: nat, inner: Bytes)
    requires field in {2, 4, 6, 8, 13, 32, 34, 35, 41} && |inner| < U32_SPAN
    requires SubmessagePayload(field, inner, NoPayload) == Some(p)
    ensures Reads(BytesField(field, inner), DefaultMessage(), DefaultMessage().(payload := p), AdminStep)
  {
    var a := DefaultMessage();
    hide Reads, SubmessagePayload, VarintPayload;
    BytesReads(true, a, AdminStep, field, inner, a.(payload := p));
  }

  lemma SubmessageReadBack(p: Payload, field: nat, inner: Bytes)
    requires PayloadOk(p)
    requires match p
             case GetChannelResponse(c) => field == 2 && inner == ChannelBytes(c)
             case GetOwnerResponse(u) => field == 4 && inner == UserBytes(0, u)
             case SetOwner(u) => field == 32 && inner == UserBytes(0, u)
             case GetConfigResponse(c) => field == 6 && inner == ConfigBytes(c)
             case GetModuleConfigResponse(m) => field == 8 && inner == ModuleBytes(m)
             case GetMetadataResponse(m) => field == 13 && inner == MetadataBytes(m)
             case SetConfig(c) => field == 34 && inner == ConfigBytes(c)
             case SetModuleConfig(m) => field == 35 && inner == ModuleBytes(m)
             case SetFixedPosition(f) => field == 41 && inner == FixedPositionBytes(f)
             case _ => false
    ensures SubmessagePayload(field, inner, NoPayload) == Some(p) && |inner| < U32_SPAN
  {
    hide Fold, DecodeUser, ChannelBytes, UserBytes, ConfigBytes, ModuleBytes, MetadataBytes, FixedPositionBytes,
         DefaultChannel, DefaultMetadata;
    match p
    case GetChannelResponse(c) => ChannelReadBack(c); ChannelFits(c);
    case GetOwnerResponse(u) => UserReadBack(0, u); UserFits(0, u);
    case SetOwner(u) => UserReadBack(0, u); UserFits(0, u);
    case GetConfigResponse(c) => ConfigReadBack(c); ConfigFits(c);
    case GetModuleConfigResponse(m) => ModuleReadBack(m); ModuleFits(m);
    case GetMetadataResponse(m) => MetadataReadBack(m); MetadataFits(m);
    case SetConfig(c) => ConfigReadBack(c); ConfigFits(c);
    case SetModuleConfig(m) => ModuleReadBack(m); ModuleFits(m);
    case SetFixedPosition(f) =>
      FixedPositionReadBack(f);
      SmallPartsFit(Device(0), Position(0, false), f, Telemetry(0));
    case _ =>
  }

  lemma PayloadReads(p: Payload)
    requires PayloadOk(p)
    ensures Reads(PayloadBytes(p), DefaultMessage(), DefaultMessage().(payload := p), AdminStep)
  {
    hide Reads, AdminStep, SubmessagePayload, BytesField, VarintField, DefaultMessage,
         ChannelBytes, UserBytes, ConfigBytes, ModuleBytes, MetadataBytes, FixedPositionBytes;
    match p
    case NoPayload => PayloadlessReads();
    case GetChannelRequest(n) => VarintPayloadReads(p, 1, n);
    case GetOwnerRequest => VarintPayloadReads(p, 3, 1);
    case GetConfigRequest(t) => VarintPayloadReads(p, 5, t);
    case GetModuleConfigRequest(t) => VarintPayloadReads(p, 7, t);
    case GetMetadataRequest => VarintPayloadReads(p, 12, 1);
    case RemoveFixedPosition => VarintPayloadReads(p, 42, 1);
    case BeginEdit => VarintPayloadReads(p, 64, 1);
    case CommitEdit => VarintPayloadReads(p, 65, 1);
    case RebootSeconds(n) => RebootReads(n);
    case GetChannelResponse(c) => SubmessageReadBack(p, 2, ChannelBytes(c)); SubmessageReads(p, 2, ChannelBytes(c));
    case GetOwnerResponse(u) => SubmessageReadBack(p, 4, UserBytes(0, u)); SubmessageReads(p, 4, UserBytes(0, u));
    case SetOwner(u) => SubmessageReadBack(p, 32, UserBytes(0, u)); SubmessageReads(p, 32, UserBytes(0, u));
    case GetConfigResponse(c) => SubmessageReadBack(p, 6, ConfigBytes(c)); SubmessageReads(p, 6, ConfigBytes(c));
    case GetModuleConfigResponse(m) => SubmessageReadBack(p, 8, ModuleBytes(m)); SubmessageReads(p, 8, ModuleBytes(m));
    case GetMetadataResponse(m) => SubmessageReadBack(p, 13, MetadataBytes(m)); SubmessageReads(p, 13, MetadataBytes(m));
    case SetConfig(c) => SubmessageReadBack(p, 34, ConfigBytes(c)); SubmessageReads(p, 34, ConfigBytes(c));
    case SetModuleConfig(m) => SubmessageReadBack(p, 35, ModuleBytes(m)); SubmessageReads(p, 35, ModuleBytes(m));
    case SetFixedPosition(f) =>
      SubmessageReadBack(p, 41, FixedPositionBytes(f));
      SubmessageReads(p, 41, FixedPositionBytes(f));
  }

  lemma PayloadlessReads()
    ensures Reads([], DefaultMessage(), DefaultMessage().(payload := NoPayload), AdminStep)
  {
    NothingReads(DefaultMessage(), AdminStep);
  }

  lemma RebootReads(n: i32)
    ensures Reads(Int32Field(97, n), DefaultMessage(), DefaultMessage().(payload := RebootSeconds(n)), AdminStep)
  {
    var a := DefaultMessage();
    hide Reads;
    Int32Reads(true, a, AdminStep, 97, n, a.(payload := RebootSeconds(n)));
  }

  lemma PasskeyReads(present: bool, passkey: Bytes, p: Payload)
    requires |passkey| == PASSKEY_LEN
    ensures Reads(Opt(present, BytesField(101, passkey)), DefaultMessage().(payload := p),
                  AdminMessage(if present then passkey else Zeros(PASSKEY_LEN), present, p), AdminStep)
  {
    hide Reads, SubmessagePayload, VarintPayload;
    BytesReads(present, DefaultMessage().(payload := p), AdminStep, 101, passkey,
               AdminMessage(if present then passkey else Zeros(PASSKEY_LEN), present, p));
  }

  /** Every canonical administration message is decoded from its own encoding. */
  lemma AdminReadBack(m: AdminMessage)
    requires Canonical(m)
    ensures DecodeAdmin(AdminBytes(m)) == Some(m)
  {
    var a0 := DefaultMessage();
    var a1 := a0.(payload := m.payload);
    PayloadReads(m.payload);
    PasskeyReads(m.hasPasskey, m.passkey, m.payload);
    hide PayloadBytes, Reads, PayloadOk, AdminStep, BytesField;
    ReadsThen(PayloadBytes(m.payload), Opt(m.hasPasskey, BytesField(101, m.passkey)), a0, a1, m, AdminStep);
    ReadsAll(AdminBytes(m), a0, m, AdminStep);
  }
}
