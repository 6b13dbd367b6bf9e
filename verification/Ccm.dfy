/**
 Counter with CBC-MAC as RFC 3610 defines it (sections 2.2 and 2.3, with L = 2), and the in-place
 computation of it. The block cipher is a parameter.
 */
module Ccm {
  import opened Machine

  const BLOCK: nat := 16
  const MAX_CCM_PAYLOAD: nat := 227
  const NONCE_LEN: nat := 13

  type Byte = bv8
  type Bytes = seq<bv8>

  /** Any function of key and block, cut or padded to a block. */
  type Cipher = (Bytes, Bytes) -> Bytes

  function E(cipher: Cipher, key: Bytes, block: Bytes): (r: Bytes)
    ensures |r| == BLOCK
  {
    var r := cipher(key, block);
    if |r| >= BLOCK then r[..BLOCK] else r + Repeat<Byte>(0, BLOCK - |r|)
  }

  function Xor(a: Bytes, b: Bytes): (r: Bytes)
    requires |a| <= |b|
    ensures |r| == |a|
  {
    seq(|a|, i requires 0 <= i < |a| => a[i] ^ b[i])
  }

  function Be16(n: nat): (r: Bytes)
    requires n < 0x1_0000
    ensures |r| == 2
  {
    [(n / 256) as bv8, (n % 256) as bv8]
  }

  // ---- RFC 3610, section 2.2: authentication ----

  /** Zero-padding to whole blocks. */
  function Pad(s: Bytes): (r: Bytes)
    ensures |r| == (|s| + BLOCK - 1) / BLOCK * BLOCK
  {
    s + Repeat<Byte>(0, (|s| + BLOCK - 1) / BLOCK * BLOCK - |s|)
  }

  function Blocks(s: Bytes): (r: seq<Bytes>)
    ensures |r| == |s| / BLOCK && forall i :: 0 <= i < |r| ==> |r[i]| == BLOCK
  {
    seq(|s| / BLOCK, i requires 0 <= i < |s| / BLOCK => s[BLOCK * i..BLOCK * i + BLOCK])
  }

  /** 64*Adata + 8*M' + L', with M' = (M - 2) / 2 and L' = 1. */
  function FirstFlags(m: nat, aad: Bytes): nat {
    (if aad == [] then 0 else 64) + 8 * ((if m >= 2 then m - 2 else 0) / 2) + 1
  }

  function FirstBlock(nonce: Bytes, m: nat, aad: Bytes, length: nat): (r: Bytes)
    requires |nonce| >= NONCE_LEN && 4 <= m <= 16 && length < 0x1_0000
    ensures |r| == BLOCK
  {
    [FirstFlags(m, aad) as bv8] + nonce[..NONCE_LEN] + Be16(length)
  }

  function AadBlocks(aad: Bytes): (r: seq<Bytes>)
    requires |aad| < 0xFF00
    ensures forall i :: 0 <= i < |r| ==> |r[i]| == BLOCK
  {
    if aad == [] then [] else Blocks(Pad(Be16(|aad|) + aad))
  }

  /** X_1 is given; X_(i+1) = E(K, X_i xor B_i). */
  function Chain(cipher: Cipher, key: Bytes, x: Bytes, blocks: seq<Bytes>): (r: Bytes)
    requires |x| == BLOCK && forall i :: 0 <= i < |blocks| ==> |blocks[i]| == BLOCK
    ensures |r| == BLOCK
  {
    if blocks == [] then x
    else
      var n := |blocks| - 1;
      E(cipher, key, Xor(Chain(cipher, key, x, blocks[..n]), blocks[n]))
  }

  /** The CBC-MAC before truncation: X_1 = E(K, B_0), then the blocks of the data and of the message. */
  function Mac(cipher: Cipher, key: Bytes, nonce: Bytes, m: nat, aad: Bytes, payload: Bytes): (r: Bytes)
    requires |nonce| >= NONCE_LEN && 4 <= m <= 16 && |payload| < 0x1_0000 && |aad| < 0xFF00
    ensures |r| == BLOCK
  {
    Chain(cipher, key, E(cipher, key, FirstBlock(nonce, m, aad, |payload|)), AadBlocks(aad) + Blocks(Pad(payload)))
  }

  // ---- RFC 3610, section 2.3: encryption ----

  function CounterBlock(nonce: Bytes, i: nat): (r: Bytes)
    requires |nonce| >= NONCE_LEN && i < 0x1_0000
    ensures |r| == BLOCK
  {
    [1 as bv8] + nonce[..NONCE_LEN] + Be16(i)
  }

  function KeyStream(cipher: Cipher, key: Bytes, nonce: Bytes, i: nat): (r: Bytes)
    requires |nonce| >= NONCE_LEN && i < 0x1_0000
    ensures |r| == BLOCK
  {
    E(cipher, key, CounterBlock(nonce, i))
  }

  /** The message xor S_1, S_2, ... */
  function Ctr(cipher: Cipher, key: Bytes, nonce: Bytes, text: Bytes): (r: Bytes)
    requires |nonce| >= NONCE_LEN && |text| < 0x1_0000
    ensures |r| == |text|
  {
    seq(|text|, i requires 0 <= i < |text| =>
      text[i] ^ KeyStream(cipher, key, nonce, i / BLOCK + 1)[i % BLOCK])
  }

  /** The authentication value U = T xor first-M-bytes(S_0). */
  function Tag(cipher: Cipher, key: Bytes, nonce: Bytes, m: nat, aad: Bytes, payload: Bytes): (r: Bytes)
    requires |nonce| >= NONCE_LEN && 4 <= m <= 16 && |payload| < 0x1_0000 && |aad| < 0xFF00
    ensures |r| == m
  {
    Xor(Mac(cipher, key, nonce, m, aad, payload)[..m], KeyStream(cipher, key, nonce, 0))
  }

  // ---- What the two calls mean ----

  predicate ValidParameters(key: Bytes, nonce: Bytes, m: nat, length: nat, aad: Bytes, tagCapacity: nat) {
    && |key| in {16, 32} && |nonce| >= NONCE_LEN && 4 <= m <= 16 && m % 2 == 0
    && tagCapacity >= m && length < 0x1_0000 && |aad| <= 30
  }

  /** Decryption: the message, unless its authentication value differs from the one received. */
  function Open(cipher: Cipher, key: Bytes, nonce: Bytes, m: nat, crypt: Bytes, aad: Bytes, tag: Bytes): Option<Bytes>
    requires ValidParameters(key, nonce, m, |crypt|, aad, |tag|)
  {
    var text := Ctr(cipher, key, nonce, crypt);
    if Tag(cipher, key, nonce, m, aad, text) == tag[..m] then Some(text) else None
  }

  lemma CtrUndoesCtr(cipher: Cipher, key: Bytes, nonce: Bytes, text: Bytes)
    requires |nonce| >= NONCE_LEN && |text| < 0x1_0000
    ensures Ctr(cipher, key, nonce, Ctr(cipher, key, nonce, text)) == text
  {
    var once := Ctr(cipher, key, nonce, text);
    forall i | 0 <= i < |text| ensures Ctr(cipher, key, nonce, once)[i] == text[i] {
      XorTwice(text[i], KeyStream(cipher, key, nonce, i / BLOCK + 1)[i % BLOCK]);
    }
  }

  lemma XorTwice(a: Byte, b: Byte)
    ensures (a ^ b) ^ b == a
  {
  }

  /** Opening what was sealed under the same key, nonce and data returns the message, for any cipher. */
  lemma OpenUndoesSeal(cipher: Cipher, key: Bytes, nonce: Bytes, m: nat, text: Bytes, aad: Bytes)
    requires ValidParameters(key, nonce, m, |text|, aad, m)
    ensures Open(cipher, key, nonce, m, Ctr(cipher, key, nonce, text), aad, Tag(cipher, key, nonce, m, aad, text))
            == Some(text)
  {
    CtrUndoesCtr(cipher, key, nonce, text);
  }

  /** Any other authentication value is refused. */
  lemma OpenRefusesOtherTags(cipher: Cipher, key: Bytes, nonce: Bytes, m: nat, text: Bytes, aad: Bytes, tag: Bytes)
    requires ValidParameters(key, nonce, m, |text|, aad, |tag|)
    ensures Open(cipher, key, nonce, m, Ctr(cipher, key, nonce, text), aad, tag).Some? <==>
              tag[..m] == Tag(cipher, key, nonce, m, aad, text)
  {
    CtrUndoesCtr(cipher, key, nonce, text);
  }

  // ---- The computation in place ----

  /** `aes_ecb_encrypt_block` into a block buffer. */
  method EncryptInto(cipher: Cipher, key: Bytes, block: Bytes, out: array<bv8>)
    requires out.Length == BLOCK
    modifies out
    ensures out[..] == E(cipher, key, block)
  {
    var r := E(cipher, key, block);
    forall i | 0 <= i < BLOCK {
      out[i] := r[i];
    }
  }

  /** Xor bytes of `data` into a buffer, from an offset. */
  method XorInto(x: array<bv8>, offset: nat, data: Bytes)
    requires offset + |data| <= x.Length
    modifies x
    ensures x[..] == old(x[..offset]) + Xor(data, old(x[offset..])) + old(x[offset + |data|..])
  {
    for i := 0 to |data|
      invariant forall j :: 0 <= j < i ==> x[offset + j] == data[j] ^ old(x[offset + j])
      invariant forall j :: 0 <= j < offset || offset + i <= j < x.Length ==> x[j] == old(x[j])
    {
      x[offset + i] := x[offset + i] ^ data[i];
    }
  }

  /** A short last block, xored in place, is the zero-padded block xored whole. */
  lemma ShortBlock(x: Bytes, data: Bytes)
    requires |x| == BLOCK && 0 < |data| <= BLOCK
    ensures Xor(data, x) + x[|data|..] == Xor(x, Pad(data))
  {
    var padded := Pad(data);
    assert |padded| == BLOCK;
    forall i | 0 <= i < BLOCK ensures (Xor(data, x) + x[|data|..])[i] == Xor(x, padded)[i] {
      if i >= |data| {
        assert padded[i] == 0;
      }
    }
  }

  lemma PaddedBlocks(data: Bytes, i: nat)
    requires i < |Blocks(Pad(data))|
    ensures BLOCK * i < |data|
    ensures Blocks(Pad(data))[i] ==
            if BLOCK * i + BLOCK <= |data| then data[BLOCK * i..BLOCK * i + BLOCK] else Pad(data[BLOCK * i..])
  {
    var padded := Pad(data);
    assert forall j :: 0 <= j < |data| ==> padded[j] == data[j];
    if BLOCK * i + BLOCK > |data| {
      var rest := data[BLOCK * i..];
      assert |Pad(rest)| == BLOCK;
      assert padded[BLOCK * i..BLOCK * i + BLOCK] == Pad(rest);
    }
  }

  /** Absorb blocks of `data`, the last one possibly short. */
  method AuthBlocks(cipher: Cipher, key: Bytes, data: Bytes, x: array<bv8>)
    requires x.Length == BLOCK
    modifies x
    ensures x[..] == Chain(cipher, key, old(x[..]), Blocks(Pad(data)))
  {
    ghost var blocks := Blocks(Pad(data));
    var fullBlocks, last := |data| / BLOCK, |data| % BLOCK;
    assert |blocks| == fullBlocks + if last > 0 then 1 else 0;
    assert Chain(cipher, key, x[..], blocks[..0]) == x[..];
    hide Chain, E, Xor, Pad, Blocks;
    for i := 0 to fullBlocks
      invariant x[..] == Chain(cipher, key, old(x[..]), blocks[..i])
    {
      AbsorbOne(cipher, key, data[BLOCK * i..BLOCK * i + BLOCK], x);
      PaddedBlocks(data, i);
      ShortIsWhole(data[BLOCK * i..BLOCK * i + BLOCK]);
      ChainStep(cipher, key, old(x[..]), blocks, i);
    }
    assert blocks[..|blocks|] == blocks;
    if last > 0 {
      AbsorbOne(cipher, key, data[BLOCK * fullBlocks..], x);
      PaddedBlocks(data, fullBlocks);
      ChainStep(cipher, key, old(x[..]), blocks, fullBlocks);
    }
  }

  /** One block more extends the chain by one step. */
  lemma ChainStep(cipher: Cipher, key: Bytes, x: Bytes, blocks: seq<Bytes>, i: nat)
    requires |x| == BLOCK && i < |blocks| && forall j :: 0 <= j < |blocks| ==> |blocks[j]| == BLOCK
    ensures Chain(cipher, key, x, blocks[..i + 1]) == E(cipher, key, Xor(Chain(cipher, key, x, blocks[..i]), blocks[i]))
  {
    hide E, Xor;
    assert blocks[..i + 1][..i] == blocks[..i];
  }

  lemma ShortIsWhole(block: Bytes)
    requires |block| == BLOCK
    ensures Pad(block) == block
  {
  }

  method AbsorbOne(cipher: Cipher, key: Bytes, block: Bytes, x: array<bv8>)
    requires x.Length == BLOCK && 0 < |block| <= BLOCK
    modifies x
    ensures x[..] == E(cipher, key, Xor(old(x[..]), Pad(block)))
  {
    XorInto(x, 0, block);
    ShortBlock(old(x[..]), block);
    assert x[..] == Xor(block, old(x[..])) + old(x[..])[|block|..];
    EncryptInto(cipher, key, x[..], x);
  }

  /** `b[0] |= ...` builds the flags of the first block. */
  lemma FlagBits(m: nat, adata: bool)
    requires 4 <= m <= 16 && m % 2 == 0
    ensures (if adata then 0x40 as bv8 else 0 as bv8) | ((8 * ((m - 2) / 2)) as bv8) | 1
            == ((if adata then 64 else 0) + 8 * ((m - 2) / 2) + 1) as bv8
  {
    if m == 4 {} else if m == 6 {} else if m == 8 {} else if m == 10 {} else if m == 12 {} else if m == 14 {}
    else { assert m == 16; }
  }

  lemma {:induction false} ChainAppend(cipher: Cipher, key: Bytes, x: Bytes, a: seq<Bytes>, b: seq<Bytes>)
    requires |x| == BLOCK
    requires forall i :: 0 <= i < |a| ==> |a[i]| == BLOCK
    requires forall i :: 0 <= i < |b| ==> |b[i]| == BLOCK
    ensures Chain(cipher, key, x, a + b) == Chain(cipher, key, Chain(cipher, key, x, a), b)
    decreases |b|
  {
    if b == [] {
      assert a + b == a;
    } else {
      var n := |b| - 1;
      ChainAppend(cipher, key, x, a, b[..n]);
      assert (a + b)[..|a| + n] == a + b[..n];
    }
  }

  /** The one or two blocks of short associated data. */
  lemma ShortAad(aad: Bytes)
    requires 0 < |aad| <= 30
    ensures var buffer := Be16(|aad|) + aad + Repeat<Byte>(0, 30 - |aad|);
            AadBlocks(aad) == if |aad| > 14 then [buffer[..BLOCK], buffer[BLOCK..]] else [buffer[..BLOCK]]
  {
    var padded := Pad(Be16(|aad|) + aad);
    var buffer := Be16(|aad|) + aad + Repeat<Byte>(0, 30 - |aad|);
    assert |padded| == if |aad| > 14 then 32 else 16;
    assert padded == buffer[..|padded|];
    assert Blocks(padded)[0] == padded[BLOCK * 0..BLOCK * 0 + BLOCK] == buffer[..BLOCK];
    if |aad| > 14 {
      assert Blocks(padded)[1] == padded[BLOCK * 1..BLOCK * 1 + BLOCK] == buffer[BLOCK..];
      assert Blocks(padded) == [buffer[..BLOCK], buffer[BLOCK..]];
    } else {
      assert Blocks(padded) == [buffer[..BLOCK]];
    }
  }

  /** `auth_start` */
  method AuthStart(cipher: Cipher, key: Bytes, nonce: Bytes, m: nat, aad: Bytes, length: nat, x: array<bv8>)
    requires |nonce| >= NONCE_LEN && 4 <= m <= 16 && m % 2 == 0 && length < 0x1_0000 && |aad| <= 30
    requires x.Length == BLOCK
    modifies x
    ensures x[..] == Chain(cipher, key, E(cipher, key, FirstBlock(nonce, m, aad, length)), AadBlocks(aad))
  {
    var flags: bv8 := if aad == [] then 0 else 0x40;
    flags := flags | ((8 * ((m - 2) / 2)) as bv8);
    flags := flags | 1;
    FlagBits(m, aad != []);
    EncryptInto(cipher, key, [flags] + nonce[..NONCE_LEN] + Be16(length), x);
    if aad != [] {
      AuthAad(cipher, key, aad, x);
    }
  }

  method AuthAad(cipher: Cipher, key: Bytes, aad: Bytes, x: array<bv8>)
    requires x.Length == BLOCK && 0 < |aad| <= 30
    modifies x
    ensures x[..] == Chain(cipher, key, old(x[..]), AadBlocks(aad))
  {
    ghost var x1 := x[..];
    ShortAad(aad);
    var prefix := Be16(|aad|) + aad;
    ghost var contents := prefix + Repeat<Byte>(0, 30 - |aad|);
    ghost var b1, b2 := contents[..BLOCK], contents[BLOCK..];
    ChainOne(cipher, key, x1, b1);
    ChainTwo(cipher, key, x1, b1, b2);
    hide Chain;
    var buffer := new bv8[2 * BLOCK](_ => 0);
    forall i | 0 <= i < |prefix| {
      buffer[i] := prefix[i];
    }
    assert buffer[..] == contents;
    XorInto(buffer, 0, x[..]);
    assert buffer[..BLOCK] == Xor(x1, b1);
    EncryptInto(cipher, key, buffer[..BLOCK], x);
    if |aad| > BLOCK - 2 {
      ghost var x2 := x[..];
      assert buffer[BLOCK..] == b2;
      XorInto(buffer, BLOCK, x[..]);
      assert buffer[BLOCK..] == Xor(x2, b2);
      EncryptInto(cipher, key, buffer[BLOCK..], x);
    }
  }

  lemma ChainOne(cipher: Cipher, key: Bytes, x: Bytes, b: Bytes)
    requires |x| == BLOCK && |b| == BLOCK
    ensures Chain(cipher, key, x, [b]) == E(cipher, key, Xor(x, b))
  {
    assert [b][..0] == [];
  }

  lemma ChainTwo(cipher: Cipher, key: Bytes, x: Bytes, b: Bytes, c: Bytes)
    requires |x| == BLOCK && |b| == BLOCK && |c| == BLOCK
    ensures Chain(cipher, key, x, [b, c]) == E(cipher, key, Xor(E(cipher, key, Xor(x, b)), c))
  {
    ChainOne(cipher, key, x, b);
    assert [b, c][..1] == [b];
  }

  /** `put_be16` into the counter field of A_i, then S_i. */
  method NextKeyStream(cipher: Cipher, key: Bytes, nonce: Bytes, i: nat, a: array<bv8>, block: array<bv8>)
    requires |nonce| >= NONCE_LEN && i < 0x1_0000 && a != block && a.Length == BLOCK && block.Length == BLOCK
    requires a[..14] == [1 as bv8] + nonce[..NONCE_LEN]
    modifies a, block
    ensures a[..14] == old(a[..14])
    ensures block[..] == KeyStream(cipher, key, nonce, i)
  {
    a[14], a[15] := (i / 256) as bv8, (i % 256) as bv8;
    assert a[..] == a[..14] + Be16(i);
    EncryptInto(cipher, key, a[..], block);
  }

  /** `encr`: the counter-mode xor of whole blocks, then of the rest. */
  method Encr(cipher: Cipher, key: Bytes, nonce: Bytes, input: Bytes, output: array<bv8>, a: array<bv8>)
    requires |nonce| >= NONCE_LEN && |input| < 0x1_0000 && |input| <= output.Length
    requires a != output && a.Length == BLOCK && a[..14] == [1 as bv8] + nonce[..NONCE_LEN]
    modifies a, output
    ensures a[..14] == old(a[..14])
    ensures output[..] == Ctr(cipher, key, nonce, input) + old(output[|input|..])
  {
    var fullBlocks, last := |input| / BLOCK, |input| % BLOCK;
    var block := new bv8[BLOCK](_ => 0);
    ghost var goal := Ctr(cipher, key, nonce, input);
    for i := 0 to fullBlocks
      invariant a[..14] == old(a[..14])
      invariant forall k :: 0 <= k < BLOCK * i ==> output[k] == goal[k]
      invariant forall k :: BLOCK * i <= k < output.Length ==> output[k] == old(output[k])
    {
      NextKeyStream(cipher, key, nonce, i + 1, a, block);
      XorOut(cipher, key, nonce, input, i, BLOCK, block, output);
    }
    if last > 0 {
      NextKeyStream(cipher, key, nonce, fullBlocks + 1, a, block);
      XorOut(cipher, key, nonce, input, fullBlocks, last, block, output);
    }
  }

  /** `count` bytes of block number `i` of the output. */
  method XorOut(cipher: Cipher, key: Bytes, nonce: Bytes, input: Bytes, i: nat, count: nat, block: array<bv8>,
                output: array<bv8>)
    requires |nonce| >= NONCE_LEN && |input| < 0x1_0000 && |input| <= output.Length
    requires 0 < count <= BLOCK && BLOCK * i + count <= |input|
    requires block != output && block.Length == BLOCK && block[..] == KeyStream(cipher, key, nonce, i + 1)
    modifies output
    ensures forall k :: BLOCK * i <= k < BLOCK * i + count ==> output[k] == Ctr(cipher, key, nonce, input)[k]
    ensures forall k :: 0 <= k < BLOCK * i || BLOCK * i + count <= k < output.Length ==> output[k] == old(output[k])
  {
    hide KeyStream;
    var offset := BLOCK * i;
    for j := 0 to count
      invariant forall k :: 0 <= k < j ==> output[offset + k] == block[k] ^ input[offset + k]
      invariant forall k :: 0 <= k < offset || offset + j <= k < output.Length ==> output[k] == old(output[k])
    {
      output[offset + j] := block[j] ^ input[offset + j];
    }
    forall k | offset <= k < offset + count ensures output[k] == Ctr(cipher, key, nonce, input)[k] {
      assert k / BLOCK == i && k % BLOCK == k - offset;
      assert output[offset + (k - offset)] == block[k - offset] ^ input[k];
      assert block[k - offset] == block[..][k - offset];
    }
  }

  /** `encr_start` */
  method EncrStart(nonce: Bytes) returns (a: array<bv8>)
    requires |nonce| >= NONCE_LEN
    ensures fresh(a) && a.Length == BLOCK && a[..14] == [1 as bv8] + nonce[..NONCE_LEN]
  {
    a := new bv8[BLOCK](_ => 0);
    a[0] := 1;
    forall i | 0 <= i < NONCE_LEN {
      a[1 + i] := nonce[i];
    }
  }

  /** `encr_auth` and `decr_auth`: xor the first bytes with S_0. */
  method MaskWithS0(cipher: Cipher, key: Bytes, nonce: Bytes, m: nat, source: Bytes, a: array<bv8>, out: array<bv8>)
    requires |nonce| >= NONCE_LEN && m <= BLOCK && m <= |source| && m <= out.Length
    requires a != out && a.Length == BLOCK && a[..14] == [1 as bv8] + nonce[..NONCE_LEN]
    modifies a, out
    ensures a[..14] == old(a[..14])
    ensures out[..] == Xor(source[..m], KeyStream(cipher, key, nonce, 0)) + old(out[m..])
  {
    var s0 := new bv8[BLOCK](_ => 0);
    NextKeyStream(cipher, key, nonce, 0, a, s0);
    hide KeyStream;
    XorPrefix(source[..m], s0, out);
  }

  method XorPrefix(source: Bytes, mask: array<bv8>, out: array<bv8>)
    requires mask != out && |source| <= mask.Length && |source| <= out.Length
    modifies out
    ensures out[..] == Xor(source, mask[..]) + old(out[|source|..])
  {
    ghost var goal := Xor(source, mask[..]) + out[|source|..];
    for i := 0 to |source|
      invariant forall k :: 0 <= k < i ==> out[k] == goal[k]
      invariant forall k :: i <= k < out.Length ==> out[k] == old(out[k])
    {
      assert goal[i] == source[i] ^ mask[i];
      out[i] := source[i] ^ mask[i];
    }
  }

  /** `constant_time_compare` */
  method ConstantTimeCompare(a: Bytes, b: Bytes) returns (equal: bool)
    ensures equal <==> a == b
  {
    if |a| != |b| {
      return false;
    }
    var diff: bv8 := 0;
    for i := 0 to |a|
      invariant diff == 0 <==> a[..i] == b[..i]
    {
      DiffBits(diff, a[i], b[i]);
      assert a[..i + 1] == a[..i] + [a[i]] && b[..i + 1] == b[..i] + [b[i]];
      diff := diff | (a[i] ^ b[i]);
    }
    assert a[..|a|] == a && b[..|b|] == b;
    equal := diff == 0;
  }

  lemma DiffBits(diff: Byte, a: Byte, b: Byte)
    ensures diff | (a ^ b) == 0 <==> diff == 0 && a == b
  {
  }

  method Authenticate(cipher: Cipher, key: Bytes, nonce: Bytes, m: nat, aad: Bytes, payload: Bytes) returns (x: array<bv8>)
    requires |nonce| >= NONCE_LEN && 4 <= m <= 16 && m % 2 == 0 && |payload| < 0x1_0000 && |aad| <= 30
    ensures fresh(x) && x.Length == BLOCK && x[..] == Mac(cipher, key, nonce, m, aad, payload)
  {
    x := new bv8[BLOCK](_ => 0);
    AuthStart(cipher, key, nonce, m, aad, |payload|, x);
    AuthBlocks(cipher, key, payload, x);
    ChainAppend(cipher, key, E(cipher, key, FirstBlock(nonce, m, aad, |payload|)), AadBlocks(aad), Blocks(Pad(payload)));
  }

  /** `aes_ccm_ae`: seals exactly as the RFC says, or rejects the parameters and writes nothing. */
  method AesCcmAe(cipher: Cipher, key: Bytes, nonce: Bytes, m: nat, plain: Bytes, aad: Bytes, crypt: array<bv8>,
                  tag: array<bv8>) returns (ok: bool)
    requires crypt != tag
    modifies crypt, tag
    ensures ok <==> ValidParameters(key, nonce, m, |plain|, aad, tag.Length) && crypt.Length >= |plain|
    ensures ok ==> crypt[..] == Ctr(cipher, key, nonce, plain) + old(crypt[|plain|..])
    ensures ok ==> tag[..] == Tag(cipher, key, nonce, m, aad, plain) + old(tag[m..])
    ensures !ok ==> crypt[..] == old(crypt[..]) && tag[..] == old(tag[..])
  {
    if !ValidParameters(key, nonce, m, |plain|, aad, tag.Length) || crypt.Length < |plain| {
      return false;
    }
    var x := Authenticate(cipher, key, nonce, m, aad, plain);
    var a := EncrStart(nonce);
    Encr(cipher, key, nonce, plain, crypt, a);
    MaskWithS0(cipher, key, nonce, m, x[..], a, tag);
    return true;
  }

  /**
   `aes_ccm_ad`: succeeds exactly when the RFC's decryption does, within the payload limit; the
   caller's buffer is written only then.
   */
  method AesCcmAd(cipher: Cipher, key: Bytes, nonce: Bytes, m: nat, crypt: Bytes, aad: Bytes, tag: Bytes,
                  plain: array<bv8>) returns (ok: bool)
    modifies plain
    ensures ok <==> ValidParameters(key, nonce, m, |crypt|, aad, |tag|) && plain.Length >= |crypt|
                    && |crypt| <= MAX_CCM_PAYLOAD && Open(cipher, key, nonce, m, crypt, aad, tag).Some?
    ensures ok ==> plain[..] == Open(cipher, key, nonce, m, crypt, aad, tag).value + old(plain[|crypt|..])
    ensures !ok ==> plain[..] == old(plain[..])
  {
    if !ValidParameters(key, nonce, m, |crypt|, aad, |tag|) || plain.Length < |crypt| || |crypt| > MAX_CCM_PAYLOAD {
      return false;
    }
    hide Xor, KeyStream, Ctr, Mac, FirstBlock;
    var t := new bv8[BLOCK](_ => 0);
    var scratch := new bv8[MAX_CCM_PAYLOAD](_ => 0);
    var a := EncrStart(nonce);
    MaskWithS0(cipher, key, nonce, m, tag, a, t);
    Encr(cipher, key, nonce, crypt, scratch, a);
    var text := scratch[..|crypt|];
    assert text == Ctr(cipher, key, nonce, crypt);
    var x := Authenticate(cipher, key, nonce, m, aad, text);
    assert t[..m] == Xor(tag[..m], KeyStream(cipher, key, nonce, 0));
    MaskedEqual(x[..m], tag[..m], KeyStream(cipher, key, nonce, 0));
    ok := ConstantTimeCompare(x[..m], t[..m]);
    if ok {
      forall i | 0 <= i < |crypt| {
        plain[i] := text[i];
      }
    }
  }

  /** Comparing after unmasking the received value is comparing with the masked one. */
  lemma MaskedEqual(x: Bytes, tag: Bytes, mask: Bytes)
    requires |x| == |tag| <= |mask|
    ensures x == Xor(tag, mask) <==> Xor(x, mask) == tag
  {
    XorInverse(x, mask);
    XorInverse(tag, mask);
  }

  lemma XorInverse(a: Bytes, mask: Bytes)
    requires |a| <= |mask|
    ensures Xor(Xor(a, mask), mask) == a
  {
    forall i | 0 <= i < |a| ensures Xor(Xor(a, mask), mask)[i] == a[i] {
      XorTwice(a[i], mask[i]);
    }
  }
}
