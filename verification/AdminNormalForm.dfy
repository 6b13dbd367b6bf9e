/**
 What decoding an encoding gives for every message, canonical or not: its normal form. A message comes back
 exactly when it is canonical.
 */
module AdminNormalForm {
  import opened Machine
  import opened Protobuf
  import opened AdminCodec
  import opened AdminRoundTrip

  // ---- The normal form: clamp the lengths, clear what is absent ----

  function KeyIf(present: bool, key: Bytes): Bytes { if present then key else Zeros(KEY_LEN) }

  function Cleared(buffer: Bytes, used: nat): (r: Bytes)
    ensures |r| == |buffer|
  {
    var n := Min(used, |buffer|);
    buffer[..n] + Zeros(|buffer| - n)
  }

  function NormalLora(l: Lora): Lora { if l.usePreset then l else l.(modemPreset := 0) }

  function NormalFixed(p: FixedPosition): FixedPosition {
    p.(latitude := if p.hasLatitude then p.latitude else 0, longitude := if p.hasLongitude then p.longitude else 0)
  }

  function NormalSecurity(s: Security): Security
    requires |s.adminKeys| == MAX_ADMIN_KEYS
  {
    s.(publicKey := KeyIf(s.hasPublicKey, s.publicKey), privateKey := KeyIf(s.hasPrivateKey, s.privateKey),
       adminKeys := [KeyIf(s.adminKeyCount > 0, s.adminKeys[0]), KeyIf(s.adminKeyCount > 1, s.adminKeys[1]),
                     KeyIf(s.adminKeyCount > 2, s.adminKeys[2])],
       adminKeyCount := Min(s.adminKeyCount, MAX_ADMIN_KEYS))
  }

  function NormalSettings(s: ChannelSettings): ChannelSettings {
    s.(psk := Cleared(s.psk, s.pskLen), pskLen := Min(s.pskLen, |s.psk|),
       name := Cleared(s.name, s.nameLen), nameLen := Min(s.nameLen, |s.name|), id := if s.hasId then s.id else 0)
  }

  function NormalChannel(c: Channel): Channel {
    c.(settings := if c.hasSettings then NormalSettings(c.settings) else DefaultSettings())
  }

  function NormalConfig(c: Config): Config
    requires ConfigShape(c)
  {
    match c
    case LoraConfig(l) => LoraConfig(NormalLora(l))
    case SecurityConfig(s) => SecurityConfig(NormalSecurity(s))
    case _ => c
  }

  function NormalMetadata(m: Metadata): Metadata {
    m.(firmware := Cleared(m.firmware, m.firmwareLen), firmwareLen := Min(m.firmwareLen, |m.firmware|))
  }

  /** A user with a name longer than its buffer is written empty, and so not read. */
  predicate Overlong(i: Identity) { i.longNameLen > |i.longName| || i.shortNameLen > |i.shortName| }

  function NormalIdentity(i: Identity): Identity {
    i.(longName := Cleared(i.longName, i.longNameLen), shortName := Cleared(i.shortName, i.shortNameLen))
  }

  function NormalPayload(p: Payload): Payload
    requires p.GetConfigResponse? || p.SetConfig? ==> ConfigShape(p.config)
  {
    match p
    case GetChannelResponse(c) => GetChannelResponse(NormalChannel(c))
    case GetOwnerResponse(i) => if Overlong(i) then NoPayload else GetOwnerResponse(NormalIdentity(i))
    case SetOwner(i) => if Overlong(i) then NoPayload else SetOwner(NormalIdentity(i))
    case GetConfigResponse(c) => GetConfigResponse(NormalConfig(c))
    case SetConfig(c) => SetConfig(NormalConfig(c))
    case GetMetadataResponse(m) => GetMetadataResponse(NormalMetadata(m))
    case SetFixedPosition(f) => SetFixedPosition(NormalFixed(f))
    case _ => p
  }

  function NormalForm(m: AdminMessage): AdminMessage
    requires m.payload.GetConfigResponse? || m.payload.SetConfig? ==> ConfigShape(m.payload.config)
  {
    m.(passkey := if m.hasPasskey then m.passkey else Zeros(PASSKEY_LEN), payload := NormalPayload(m.payload))
  }

  // ---- The encoding of a message is that of its normal form ----

  lemma ClearedFacts(buffer: Bytes, used: nat)
    ensures Filled(Cleared(buffer, used), Min(used, |buffer|))
    ensures Cleared(buffer, used)[..Min(used, |buffer|)] == buffer[..Min(used, |buffer|)]
    ensures Filled(buffer, used) <==> used <= |buffer| && Cleared(buffer, used) == buffer
  {
    if used <= |buffer| {
      assert buffer == buffer[..used] + buffer[used..];
      if Cleared(buffer, used) == buffer {
        assert Cleared(buffer, used)[used..] == Zeros(|buffer| - used);
      }
    }
    assert Cleared(buffer, used)[Min(used, |buffer|)..] == Zeros(|buffer| - Min(used, |buffer|));
  }

  lemma SecurityNormal(s: Security)
    requires SecurityShape(s)
    ensures SecurityOk(NormalSecurity(s))
    ensures SecurityBytes(NormalSecurity(s)) == SecurityBytes(s)
    ensures NormalSecurity(s) == s <==> SecurityOk(s)
  {
    hide BytesField, VarintField;
    if SecurityOk(s) {
      assert NormalSecurity(s).adminKeys == s.adminKeys;
    }
  }

  lemma SettingsNormal(s: ChannelSettings)
    requires SettingsShape(s)
    ensures SettingsOk(NormalSettings(s))
    ensures SettingsBytes(NormalSettings(s)) == SettingsBytes(s)
    ensures NormalSettings(s) == s <==> SettingsOk(s)
  {
    ClearedFacts(s.psk, s.pskLen);
    ClearedFacts(s.name, s.nameLen);
    hide Cleared, Filled, BytesField, Fixed32Field;
  }

  lemma IdentityNormal(i: Identity)
    requires IdentityShape(i) && !Overlong(i)
    ensures IdentityOk(NormalIdentity(i))
    ensures UserBytes(0, NormalIdentity(i)) == UserBytes(0, i)
    ensures NormalIdentity(i) == i <==> IdentityOk(i)
  {
    ClearedFacts(i.longName, i.longNameLen);
    ClearedFacts(i.shortName, i.shortNameLen);
    hide Cleared, Filled, BytesField, VarintField, HasKey;
  }

  lemma MetadataNormal(m: Metadata)
    requires |m.firmware| == FIRMWARE_MAX
    ensures MetadataOk(NormalMetadata(m))
    ensures MetadataBytes(NormalMetadata(m)) == MetadataBytes(m)
    ensures NormalMetadata(m) == m <==> MetadataOk(m)
  {
    ClearedFacts(m.firmware, m.firmwareLen);
    hide Cleared, Filled, BytesField, VarintField;
  }

  lemma ConfigNormal(c: Config)
    requires c.SecurityConfig? ==> SecurityShape(c.security)
    ensures ConfigOk(NormalConfig(c))
    ensures ConfigBytes(NormalConfig(c)) == ConfigBytes(c)
    ensures NormalConfig(c) == c <==> ConfigOk(c)
  {
    if c.SecurityConfig? {
      SecurityNormal(c.security);
      hide SecurityBytes, NormalSecurity, SecurityOk, BytesField;
    }
  }

  ghost predicate OverlongUser(p: Payload) { (p.GetOwnerResponse? || p.SetOwner?) && Overlong(p.owner) }

  lemma PayloadNormal(p: Payload)
    requires PayloadShape(p)
    ensures PayloadOk(NormalPayload(p))
    ensures !OverlongUser(p) ==> PayloadBytes(NormalPayload(p)) == PayloadBytes(p)
    ensures NormalPayload(p) == p <==> PayloadOk(p)
  {
    hide SettingsBytes, UserBytes, ConfigBytes, MetadataBytes, BytesField, VarintField, NormalSettings, SettingsOk,
         NormalConfig, ConfigOk, NormalMetadata, MetadataOk, NormalIdentity, DefaultSettings;
    match p
    case GetChannelResponse(c) => SettingsNormal(c.settings); DefaultSettingsOk();
    case GetOwnerResponse(i) => if !Overlong(i) { IdentityNormal(i); }
    case SetOwner(i) => if !Overlong(i) { IdentityNormal(i); }
    case GetConfigResponse(c) => ConfigNormal(c);
    case SetConfig(c) => ConfigNormal(c);
    case GetMetadataResponse(m) => MetadataNormal(m);
    case _ =>
  }

  lemma DefaultSettingsOk()
    ensures SettingsOk(DefaultSettings())
  {
    assert Zeros(KEY_LEN)[0..] == Zeros(KEY_LEN) && Zeros(CHANNEL_NAME_MAX)[0..] == Zeros(CHANNEL_NAME_MAX);
  }

  // ---- What comes back ----

  /** An overlong user is lost on the way: the message comes back without a payload. */
  lemma OverlongIsDropped(m: AdminMessage)
    requires Shaped(m) && OverlongUser(m.payload)
    ensures DecodeAdmin(AdminBytes(m)) == Some(NormalForm(m))
  {
    var field := if m.payload.SetOwner? then 32 else 4;
    OverlongBytes(m, field);
    NobodyReads(field, m.hasPasskey, m.passkey);
    assert NormalForm(m) == AdminMessage(if m.hasPasskey then m.passkey else Zeros(PASSKEY_LEN), m.hasPasskey, NoPayload);
    hide AdminBytes, BytesField, Opt, Fold, NormalForm, Zeros;
  }

  lemma NobodyReads(field: nat, present: bool, passkey: Bytes)
    requires field in {4, 32} && |passkey| == PASSKEY_LEN
    ensures Fold(BytesField(field, []) + Opt(present, BytesField(101, passkey)), DefaultMessage(), AdminStep)
            == Some(AdminMessage(if present then passkey else Zeros(PASSKEY_LEN), present, NoPayload))
  {
    var a0 := DefaultMessage();
    var a2 := AdminMessage(if present then passkey else Zeros(PASSKEY_LEN), present, NoPayload);
    var user, key := BytesField(field, []), Opt(present, BytesField(101, passkey));
    NobodyRead(field);
    assert a0.(payload := NoPayload) == a0;
    hide SubmessagePayload, AdminStep, BytesField, Reads, Fold, Opt, DefaultMessage, Zeros;
    SubmessageReads(NoPayload, field, []);
    PasskeyReads(present, passkey, NoPayload);
    ReadsThen(user, key, a0, a0, a2, AdminStep);
    ReadsAll(user + key, a0, a2, AdminStep);
  }

  /** An empty user has no short name and is refused. */
  lemma NobodyRead(field: nat)
    requires field in {4, 32}
    ensures SubmessagePayload(field, [], NoPayload) == Some(NoPayload)
  {
  }

  lemma OverlongBytes(m: AdminMessage, field: nat)
    requires Shaped(m) && OverlongUser(m.payload) && field == if m.payload.SetOwner? then 32 else 4
    ensures AdminBytes(m) == BytesField(field, []) + Opt(m.hasPasskey, BytesField(101, m.passkey))
  {
    hide BytesField;
  }

  /** For every message, decoding its encoding gives its normal form, which is canonical. */
  lemma DecodeGivesNormalForm(m: AdminMessage)
    requires Shaped(m)
    ensures DecodeAdmin(AdminBytes(m)) == Some(NormalForm(m)) && Canonical(NormalForm(m))
  {
    PayloadNormal(m.payload);
    if OverlongUser(m.payload) {
      OverlongIsDropped(m);
    } else {
      hide NormalPayload, PayloadBytes, PayloadOk;
      AdminReadBack(NormalForm(m));
      assert AdminBytes(NormalForm(m)) == AdminBytes(m);
    }
  }

  /** A message survives encoding and decoding exactly when it is canonical. */
  lemma RoundTripExactlyCanonical(m: AdminMessage)
    requires Shaped(m)
    ensures DecodeAdmin(AdminBytes(m)) == Some(m) <==> Canonical(m)
  {
    DecodeGivesNormalForm(m);
    PayloadNormal(m.payload);
    hide NormalPayload, PayloadBytes, PayloadOk, DecodeAdmin, AdminBytes;
  }
}
