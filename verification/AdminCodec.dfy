/** The administration messages: their wire bytes, and what the decoders do with each field. */
module AdminCodec {
  import opened Machine
  import opened Protobuf

  const MAX_ADMIN_KEYS: nat := 3
  const KEY_LEN: nat := 32
  const CHANNEL_NAME_MAX: nat := 16
  const PASSKEY_LEN: nat := 8
  const FIRMWARE_MAX: nat := 32
  const LONG_NAME_MAX: nat := 40
  const SHORT_NAME_MAX: nat := 5
  const DEFAULT_HOP_LIMIT: u32 := 7
  const HW_MODEL_DEFAULT: u32 := 63

  // ---- Entities: a fixed buffer is a sequence of its full length ----

  datatype Lora = Lora(
    usePreset: bool, modemPreset: u32, region: u32, hopLimit: u32, txPower: i32, okToMqtt: bool)

  datatype Device = Device(role: u32)

  datatype Position = Position(broadcastSecs: u32, fixed: bool)

  datatype FixedPosition = FixedPosition(latitude: i32, longitude: i32, hasLatitude: bool, hasLongitude: bool)

  datatype Security = Security(
    publicKey: Bytes, hasPublicKey: bool, privateKey: Bytes, hasPrivateKey: bool, adminKeys: seq<Bytes>,
    adminKeyCount: nat, isManaged: bool, adminChannelEnabled: bool)

  datatype ChannelSettings = ChannelSettings(psk: Bytes, pskLen: nat, name: Bytes, nameLen: nat, id: u32, hasId: bool)

  datatype Channel = Channel(index: i32, role: u32, settings: ChannelSettings, hasSettings: bool)

  datatype Telemetry = Telemetry(updateInterval: u32)

  datatype Config =
    | NoConfig
    | DeviceConfig(device: Device)
    | PositionConfig(position: Position)
    | LoraConfig(lora: Lora)
    | SecurityConfig(security: Security)
    | SessionkeyConfig

  datatype ModuleConfig = NoModule | TelemetryModule(telemetry: Telemetry)

  datatype Metadata = Metadata(firmware: Bytes, firmwareLen: nat, hwModel: u32)

  datatype Identity = Identity(
    longName: Bytes, longNameLen: nat, shortName: Bytes, shortNameLen: nat, hwModel: u32, role: u32,
    isLicensed: bool, publicKey: Bytes)

  datatype Payload =
    | NoPayload
    | GetChannelRequest(indexPlusOne: u32)
    | GetChannelResponse(channel: Channel)
    | GetOwnerRequest
    | GetOwnerResponse(owner: Identity)
    | SetOwner(owner: Identity)
    | GetConfigRequest(configType: u32)
    | GetConfigResponse(config: Config)
    | GetModuleConfigRequest(moduleType: u32)
    | GetModuleConfigResponse(moduleConfig: ModuleConfig)
    | GetMetadataRequest
    | GetMetadataResponse(metadata: Metadata)
    | SetConfig(config: Config)
    | SetModuleConfig(moduleConfig: ModuleConfig)
    | SetFixedPosition(fixedPosition: FixedPosition)
    | RemoveFixedPosition
    | BeginEdit
    | CommitEdit
    | RebootSeconds(seconds: i32)

  datatype AdminMessage = AdminMessage(passkey: Bytes, hasPasskey: bool, payload: Payload)

  /** Copying the front of a slice over the front of a buffer. */
  function Overlay(buffer: Bytes, slice: Bytes): (r: Bytes)
    ensures |r| == |buffer|
  {
    var n := Min(|slice|, |buffer|);
    slice[..n] + buffer[n..]
  }

  // ---- The lengths of the fixed buffers, which the fields' types give ----

  ghost predicate SecurityShape(s: Security) {
    && |s.publicKey| == KEY_LEN && |s.privateKey| == KEY_LEN && |s.adminKeys| == MAX_ADMIN_KEYS
    && forall i :: 0 <= i < MAX_ADMIN_KEYS ==> |s.adminKeys[i]| == KEY_LEN
  }

  ghost predicate SettingsShape(s: ChannelSettings) { |s.psk| == KEY_LEN && |s.name| == CHANNEL_NAME_MAX }

  predicate ConfigShape(c: Config) { c.SecurityConfig? ==> |c.security.adminKeys| == MAX_ADMIN_KEYS }

  ghost predicate IdentityShape(i: Identity) {
    |i.longName| == LONG_NAME_MAX && |i.shortName| == SHORT_NAME_MAX && |i.publicKey| == KEY_LEN
  }

  ghost predicate PayloadShape(p: Payload) {
    match p
    case GetChannelResponse(c) => SettingsShape(c.settings)
    case GetOwnerResponse(i) => IdentityShape(i)
    case SetOwner(i) => IdentityShape(i)
    case GetConfigResponse(c) => c.SecurityConfig? ==> SecurityShape(c.security)
    case SetConfig(c) => c.SecurityConfig? ==> SecurityShape(c.security)
    case GetMetadataResponse(m) => |m.firmware| == FIRMWARE_MAX
    case _ => true
  }

  ghost predicate Shaped(m: AdminMessage) { |m.passkey| == PASSKEY_LEN && PayloadShape(m.payload) }

  // ---- Canonical values: absent fields zero, lengths in range, tails zero ----

  /** A buffer of which only the first `used` bytes carry something. */
  ghost predicate Filled(buffer: Bytes, used: nat) {
    used <= |buffer| && buffer[used..] == Zeros(|buffer| - used)
  }

  ghost predicate LoraOk(l: Lora) { !l.usePreset ==> l.modemPreset == 0 }

  ghost predicate FixedPositionOk(p: FixedPosition) {
    (!p.hasLatitude ==> p.latitude == 0) && (!p.hasLongitude ==> p.longitude == 0)
  }

  ghost predicate SecurityOk(s: Security) {
    && SecurityShape(s)
    && (!s.hasPublicKey ==> s.publicKey == Zeros(KEY_LEN)) && (!s.hasPrivateKey ==> s.privateKey == Zeros(KEY_LEN))
    && s.adminKeyCount <= MAX_ADMIN_KEYS
    && forall i :: s.adminKeyCount <= i < MAX_ADMIN_KEYS ==> s.adminKeys[i] == Zeros(KEY_LEN)
  }

  ghost predicate SettingsOk(s: ChannelSettings) {
    && SettingsShape(s) && Filled(s.psk, s.pskLen) && Filled(s.name, s.nameLen)
    && (!s.hasId ==> s.id == 0)
  }

  ghost predicate ChannelOk(c: Channel) {
    SettingsOk(c.settings) && (!c.hasSettings ==> c.settings == DefaultSettings())
  }

  ghost predicate ConfigOk(c: Config) {
    match c
    case LoraConfig(l) => LoraOk(l)
    case SecurityConfig(s) => SecurityOk(s)
    case _ => true
  }

  ghost predicate MetadataOk(m: Metadata) { |m.firmware| == FIRMWARE_MAX && Filled(m.firmware, m.firmwareLen) }

  ghost predicate IdentityOk(i: Identity) {
    IdentityShape(i) && Filled(i.longName, i.longNameLen) && Filled(i.shortName, i.shortNameLen)
  }

  ghost predicate PayloadOk(p: Payload) {
    match p
    case GetChannelResponse(c) => ChannelOk(c)
    case GetOwnerResponse(i) => IdentityOk(i)
    case SetOwner(i) => IdentityOk(i)
    case GetConfigResponse(c) => ConfigOk(c)
    case SetConfig(c) => ConfigOk(c)
    case GetMetadataResponse(m) => MetadataOk(m)
    case SetFixedPosition(f) => FixedPositionOk(f)
    case _ => true
  }

  ghost predicate Canonical(m: AdminMessage) {
    |m.passkey| == PASSKEY_LEN && (!m.hasPasskey ==> m.passkey == Zeros(PASSKEY_LEN)) && PayloadOk(m.payload)
  }

  // ---- The bytes of each message ----

  function LoraBytes(l: Lora): Bytes {
    Opt(l.usePreset, VarintField(1, 1)) + Opt(l.usePreset, VarintField(2, l.modemPreset))
    + Opt(l.region != 0, VarintField(7, l.region)) + VarintField(8, l.hopLimit)
    + Opt(l.txPower != 0, Int32Field(10, l.txPower)) + Opt(l.okToMqtt, VarintField(105, 1))
  }

  function DeviceBytes(d: Device): Bytes { Opt(d.role != 0, VarintField(1, d.role)) }

  function PositionBytes(p: Position): Bytes {
    Opt(p.broadcastSecs != 0, VarintField(1, p.broadcastSecs)) + Opt(p.fixed, VarintField(3, 1))
  }

  /** `i32::to_le_bytes`, as the unsigned value of the same bits. */
  function Bits(v: i32): u32 { if v < 0 then v + U32_SPAN else v }

  function FixedPositionBytes(p: FixedPosition): Bytes {
    Opt(p.hasLatitude, Fixed32Field(1, Bits(p.latitude))) + Opt(p.hasLongitude, Fixed32Field(2, Bits(p.longitude)))
  }

  function SecurityBytes(s: Security): Bytes
    requires |s.adminKeys| == MAX_ADMIN_KEYS
  {
    Opt(s.hasPublicKey, BytesField(1, s.publicKey)) + Opt(s.hasPrivateKey, BytesField(2, s.privateKey))
    + Opt(s.adminKeyCount > 0, BytesField(3, s.adminKeys[0])) + Opt(s.adminKeyCount > 1, BytesField(3, s.adminKeys[1]))
    + Opt(s.adminKeyCount > 2, BytesField(3, s.adminKeys[2]))
    + Opt(s.isManaged, VarintField(4, 1)) + Opt(s.adminChannelEnabled, VarintField(8, 1))
  }

  function SettingsBytes(s: ChannelSettings): Bytes {
    Opt(s.pskLen > 0, BytesField(2, s.psk[..Min(s.pskLen, |s.psk|)]))
    + Opt(s.nameLen > 0, BytesField(3, s.name[..Min(s.nameLen, |s.name|)]))
    + Opt(s.hasId, Fixed32Field(4, s.id))
  }

  function ChannelBytes(c: Channel): Bytes {
    Opt(c.index != 0, Int32Field(1, c.index)) + Opt(c.hasSettings, BytesField(2, SettingsBytes(c.settings)))
    + Opt(c.role != 0, VarintField(3, c.role))
  }

  function TelemetryBytes(t: Telemetry): Bytes { Opt(t.updateInterval != 0, VarintField(1, t.updateInterval)) }

  function ConfigBytes(c: Config): Bytes
    requires ConfigShape(c)
  {
    match c
    case NoConfig => []
    case DeviceConfig(d) => BytesField(1, DeviceBytes(d))
    case PositionConfig(p) => BytesField(2, PositionBytes(p))
    case LoraConfig(l) => BytesField(6, LoraBytes(l))
    case SecurityConfig(s) => BytesField(8, SecurityBytes(s))
    case SessionkeyConfig => BytesField(9, [])
  }

  function ModuleBytes(m: ModuleConfig): Bytes {
    match m
    case NoModule => []
    case TelemetryModule(t) => BytesField(6, TelemetryBytes(t))
  }

  function MetadataBytes(m: Metadata): Bytes {
    var version := m.firmware[..Min(m.firmwareLen, |m.firmware|)];
    Opt(version != [], BytesField(1, version)) + Opt(m.hwModel != 0, VarintField(3, m.hwModel))
  }

  function HexDigit(n: nat): u8
    requires n < 16
  {
    if n < 10 then 48 + n else 87 + n
  }

  /** "!" and the node number in eight hexadecimal digits. */
  function NodeId(n: u32): (r: Bytes)
    ensures |r| == 9
  {
    [33, HexDigit(n / 0x1000_0000), HexDigit(n / 0x100_0000 % 16), HexDigit(n / 0x10_0000 % 16),
     HexDigit(n / 0x1_0000 % 16), HexDigit(n / 0x1000 % 16), HexDigit(n / 0x100 % 16), HexDigit(n / 0x10 % 16),
     HexDigit(n % 16)]
  }

  predicate HasKey(key: Bytes) { exists i :: 0 <= i < |key| && key[i] != 0 }

  function UserBytes(node: u32, u: Identity): Bytes {
    if u.longNameLen > |u.longName| || u.shortNameLen > |u.shortName| then []
    else
      BytesField(1, NodeId(node)) + BytesField(2, u.longName[..u.longNameLen])
      + BytesField(3, u.shortName[..u.shortNameLen]) + VarintField(5, u.hwModel)
      + Opt(u.isLicensed, VarintField(6, 1)) + Opt(u.role != 0, VarintField(7, u.role))
      + Opt(HasKey(u.publicKey), BytesField(8, u.publicKey))
  }

  function PayloadBytes(p: Payload): Bytes
    requires p.GetConfigResponse? || p.SetConfig? ==> ConfigShape(p.config)
  {
    match p
    case NoPayload => []
    case GetChannelRequest(n) => VarintField(1, n)
    case GetChannelResponse(c) => BytesField(2, ChannelBytes(c))
    case GetOwnerRequest => VarintField(3, 1)
    case GetOwnerResponse(u) => BytesField(4, UserBytes(0, u))
    case SetOwner(u) => BytesField(32, UserBytes(0, u))
    case GetConfigRequest(t) => VarintField(5, t)
    case GetConfigResponse(c) => BytesField(6, ConfigBytes(c))
    case GetModuleConfigRequest(t) => VarintField(7, t)
    case GetModuleConfigResponse(m) => BytesField(8, ModuleBytes(m))
    case GetMetadataRequest => VarintField(12, 1)
    case GetMetadataResponse(m) => BytesField(13, MetadataBytes(m))
    case SetConfig(c) => BytesField(34, ConfigBytes(c))
    case SetModuleConfig(m) => BytesField(35, ModuleBytes(m))
    case SetFixedPosition(f) => BytesField(41, FixedPositionBytes(f))
    case RemoveFixedPosition => VarintField(42, 1)
    case BeginEdit => VarintField(64, 1)
    case CommitEdit => VarintField(65, 1)
    case RebootSeconds(n) => Int32Field(97, n)
  }

  function AdminBytes(m: AdminMessage): Bytes
    requires m.payload.GetConfigResponse? || m.payload.SetConfig? ==> ConfigShape(m.payload.config)
  {
    PayloadBytes(m.payload) + Opt(m.hasPasskey, BytesField(101, m.passkey))
  }

  // ---- What each decoder does with a field ----

  function Skip<T>(acc: T, wire: nat, s: Bytes): Option<(T, Bytes)> {
    var rest :- SkipField(s, wire);
    Some((acc, rest))
  }

  function LoraStep(l: Lora, field: nat, wire: nat, s: Bytes): Option<(Lora, Bytes)> {
    if wire == 0 && field in {1, 2, 7, 8, 105} then
      var (v, rest) :- ReadVarint(s);
      Some((if field == 1 then l.(usePreset := v != 0)
            else if field == 2 then l.(modemPreset := v)
            else if field == 7 then l.(region := v)
            else if field == 8 then l.(hopLimit := v)
            else l.(okToMqtt := v != 0), rest))
    else if wire == 0 && field == 10 then
      var (v, rest) :- ReadInt32(s);
      Some((l.(txPower := v), rest))
    else Skip(l, wire, s)
  }

  function DeviceStep(d: Device, field: nat, wire: nat, s: Bytes): Option<(Device, Bytes)> {
    if wire == 0 && field == 1 then
      var (v, rest) :- ReadVarint(s);
      Some((Device(v), rest))
    else Skip(d, wire, s)
  }

  function PositionStep(p: Position, field: nat, wire: nat, s: Bytes): Option<(Position, Bytes)> {
    if wire == 0 && field in {1, 3} then
      var (v, rest) :- ReadVarint(s);
      Some((if field == 1 then p.(broadcastSecs := v) else p.(fixed := v != 0), rest))
    else Skip(p, wire, s)
  }

  function FixedPositionStep(p: FixedPosition, field: nat, wire: nat, s: Bytes): Option<(FixedPosition, Bytes)> {
    if wire == 5 && field in {1, 2} && |s| >= 4 then
      var (v, rest) :- ReadFixed32(s);
      Some((if field == 1 then p.(latitude := Truncate32(v), hasLatitude := true)
            else p.(longitude := Truncate32(v), hasLongitude := true), rest))
    else Skip(p, wire, s)
  }

  function SecurityStep(k: Security, field: nat, wire: nat, s: Bytes): Option<(Security, Bytes)> {
    if wire == 2 && field in {1, 2, 3} then
      var (slice, rest) :- ReadBytes(s);
      Some((if |slice| != KEY_LEN then k
            else if field == 1 then k.(publicKey := slice, hasPublicKey := true)
            else if field == 2 then k.(privateKey := slice, hasPrivateKey := true)
            else if k.adminKeyCount < MAX_ADMIN_KEYS && k.adminKeyCount < |k.adminKeys| then
              k.(adminKeys := k.adminKeys[k.adminKeyCount := slice], adminKeyCount := k.adminKeyCount + 1)
            else k, rest))
    else if wire == 0 && field in {4, 8} then
      var (v, rest) :- ReadVarint(s);
      Some((if field == 4 then k.(isManaged := v != 0) else k.(adminChannelEnabled := v != 0), rest))
    else Skip(k, wire, s)
  }

  function SettingsStep(c: ChannelSettings, field: nat, wire: nat, s: Bytes): Option<(ChannelSettings, Bytes)> {
    if wire == 2 && field in {2, 3} then
      var (slice, rest) :- ReadBytes(s);
      Some((if field == 2 then c.(psk := Overlay(c.psk, slice), pskLen := Min(|slice|, |c.psk|))
            else c.(name := Overlay(c.name, slice), nameLen := Min(|slice|, |c.name|)), rest))
    else if wire == 5 && field == 4 then
      var (v, rest) :- ReadFixed32(s);
      Some((c.(id := v, hasId := true), rest))
    else Skip(c, wire, s)
  }

  function DefaultSettings(): ChannelSettings {
    ChannelSettings(Zeros(KEY_LEN), 0, Zeros(CHANNEL_NAME_MAX), 0, 0, false)
  }

  function ChannelStep(c: Channel, field: nat, wire: nat, s: Bytes): Option<(Channel, Bytes)> {
    if wire == 0 && field == 1 then
      var (v, rest) :- ReadInt32(s);
      Some((c.(index := v), rest))
    else if wire == 2 && field == 2 then
      var (slice, rest) :- ReadBytes(s);
      var settings :- Fold(slice, DefaultSettings(), SettingsStep);
      Some((c.(settings := settings, hasSettings := true), rest))
    else if wire == 0 && field == 3 then
      var (v, rest) :- ReadVarint(s);
      Some((c.(role := v), rest))
    else Skip(c, wire, s)
  }

  function TelemetryStep(t: Telemetry, field: nat, wire: nat, s: Bytes): Option<(Telemetry, Bytes)> {
    if wire == 0 && field == 1 then
      var (v, rest) :- ReadVarint(s);
      Some((Telemetry(v), rest))
    else Skip(t, wire, s)
  }

  function DefaultLora(): Lora { Lora(false, 0, 0, DEFAULT_HOP_LIMIT, 0, false) }

  function DefaultSecurity(): Security {
    Security(Zeros(KEY_LEN), false, Zeros(KEY_LEN), false, [Zeros(KEY_LEN), Zeros(KEY_LEN), Zeros(KEY_LEN)], 0,
             false, false)
  }

  function ConfigStep(c: Config, field: nat, wire: nat, s: Bytes): Option<(Config, Bytes)> {
    if wire == 2 && field in {1, 2, 6, 8, 9} then
      var (slice, rest) :- ReadBytes(s);
      if field == 1 then
        var d :- Fold(slice, Device(0), DeviceStep);
        Some((DeviceConfig(d), rest))
      else if field == 2 then
        var p :- Fold(slice, Position(0, false), PositionStep);
        Some((PositionConfig(p), rest))
      else if field == 6 then
        var l :- Fold(slice, DefaultLora(), LoraStep);
        Some((LoraConfig(l), rest))
      else if field == 8 then
        var k :- Fold(slice, DefaultSecurity(), SecurityStep);
        Some((SecurityConfig(k), rest))
      else Some((SessionkeyConfig, rest))
    else Skip(c, wire, s)
  }

  function ModuleStep(m: ModuleConfig, field: nat, wire: nat, s: Bytes): Option<(ModuleConfig, Bytes)> {
    if wire == 2 && field == 6 then
      var (slice, rest) :- ReadBytes(s);
      var t :- Fold(slice, Telemetry(0), TelemetryStep);
      Some((TelemetryModule(t), rest))
    else Skip(m, wire, s)
  }

  function DefaultMetadata(): Metadata { Metadata(Zeros(FIRMWARE_MAX), 0, 0) }

  function MetadataStep(m: Metadata, field: nat, wire: nat, s: Bytes): Option<(Metadata, Bytes)> {
    if wire == 2 && field == 1 then
      var (slice, rest) :- ReadBytes(s);
      Some((m.(firmware := Overlay(m.firmware, slice), firmwareLen := Min(|slice|, |m.firmware|)), rest))
    else if wire == 0 && field == 3 then
      var (v, rest) :- ReadVarint(s);
      Some((m.(hwModel := v), rest))
    else Skip(m, wire, s)
  }

  /** A user being decoded; a user without a short name is refused. */
  datatype User = User(identity: Identity, hasShort: bool)

  function DefaultUser(): User {
    User(Identity(Zeros(LONG_NAME_MAX), 0, Zeros(SHORT_NAME_MAX), 0, HW_MODEL_DEFAULT, 0, false, Zeros(KEY_LEN)), false)
  }

  function UserStep(u: User, field: nat, wire: nat, s: Bytes): Option<(User, Bytes)> {
    var i := u.identity;
    if wire == 2 && field in {2, 3, 8} then
      var (slice, rest) :- ReadBytes(s);
      Some((if field == 2 then
              u.(identity := i.(longName := Overlay(i.longName, slice), longNameLen := Min(|slice|, |i.longName|)))
            else if field == 3 then
              User(i.(shortName := Overlay(i.shortName, slice), shortNameLen := Min(|slice|, |i.shortName|)), true)
            else u.(identity := i.(publicKey := Overlay(i.publicKey, slice))), rest))
    else if wire == 0 && field in {5, 6, 7} then
      var (v, rest) :- ReadVarint(s);
      Some((u.(identity := if field == 5 then i.(hwModel := v)
                           else if field == 6 then i.(isLicensed := v != 0)
                           else i.(role := v)), rest))
    else Skip(u, wire, s)
  }

  function DecodeUser(s: Bytes): Option<Identity> {
    var u :- Fold(s, DefaultUser(), UserStep);
    if u.hasShort then Some(u.identity) else None
  }

  function DefaultChannel(): Channel { Channel(0, 0, DefaultSettings(), false) }

  /** The payload a varint field of an administration message sets, if any. */
  function VarintPayload(field: nat, v: u32, p: Payload): Payload {
    if field == 1 then GetChannelRequest(v)
    else if field == 5 then GetConfigRequest(v)
    else if field == 7 then GetModuleConfigRequest(v)
    else if v == 0 then p
    else if field == 3 then GetOwnerRequest
    else if field == 12 then GetMetadataRequest
    else if field == 42 then RemoveFixedPosition
    else if field == 64 then BeginEdit
    else if field == 65 then CommitEdit
    else p
  }

  /** The payload a submessage sets; a user that is refused leaves the payload as it was. */
  function SubmessagePayload(field: nat, slice: Bytes, p: Payload): Option<Payload> {
    if field == 2 then
      var c :- Fold(slice, DefaultChannel(), ChannelStep);
      Some(GetChannelResponse(c))
    else if field == 4 then
      var u := DecodeUser(slice);
      Some(if u.Some? then GetOwnerResponse(u.value) else p)
    else if field == 32 then
      var u := DecodeUser(slice);
      Some(if u.Some? then SetOwner(u.value) else p)
    else if field == 6 then
      var c :- Fold(slice, NoConfig, ConfigStep);
      Some(GetConfigResponse(c))
    else if field == 8 then
      var m :- Fold(slice, NoModule, ModuleStep);
      Some(GetModuleConfigResponse(m))
    else if field == 13 then
      var m :- Fold(slice, DefaultMetadata(), MetadataStep);
      Some(GetMetadataResponse(m))
    else if field == 34 then
      var c :- Fold(slice, NoConfig, ConfigStep);
      Some(SetConfig(c))
    else if field == 35 then
      var m :- Fold(slice, NoModule, ModuleStep);
      Some(SetModuleConfig(m))
    else if field == 41 then
      var f :- Fold(slice, FixedPosition(0, 0, false, false), FixedPositionStep);
      Some(SetFixedPosition(f))
    else Some(p)
  }

  function AdminStep(m: AdminMessage, field: nat, wire: nat, s: Bytes): Option<(AdminMessage, Bytes)> {
    if wire == 0 && field in {1, 3, 5, 7, 12, 42, 64, 65} then
      var (v, rest) :- ReadVarint(s);
      Some((m.(payload := VarintPayload(field, v, m.payload)), rest))
    else if wire == 0 && field == 97 then
      var (v, rest) :- ReadInt32(s);
      Some((m.(payload := RebootSeconds(v)), rest))
    else if wire == 2 && field in {2, 4, 6, 8, 13, 32, 34, 35, 41} then
      var (slice, rest) :- ReadBytes(s);
      var p :- SubmessagePayload(field, slice, m.payload);
      Some((m.(payload := p), rest))
    else if wire == 2 && field == 101 then
      var (slice, rest) :- ReadBytes(s);
      Some((if |slice| == PASSKEY_LEN then m.(passkey := slice, hasPasskey := true) else m, rest))
    else Skip(m, wire, s)
  }

  function DefaultMessage(): AdminMessage { AdminMessage(Zeros(PASSKEY_LEN), false, NoPayload) }

  function DecodeAdmin(s: Bytes): Option<AdminMessage> { Fold(s, DefaultMessage(), AdminStep) }
}
