/** The octets of the formatted blocks, as sections 2.2 and 2.3 of RFC 3610 number them. */
module CcmFormat {
  import opened Machine
  import opened Ccm

  /** Two octets, most significant first. */
  lemma TwoOctets(n: nat)
    requires n < 0x1_0000
    ensures 256 * Be16(n)[0] as int + Be16(n)[1] as int == n
  {
    Octet(n / 256);
    Octet(n % 256);
  }

  lemma Octet(x: nat)
    requires x < 256
    ensures x as bv8 as int == x
  {
    assert x % 256 == x;
  }

  /** B_0: octet 0 holds 64 for data, 8 (M - 2) / 2 and L - 1; then the nonce; then the length of the message. */
  lemma FirstBlockOctets(nonce: Bytes, m: nat, aad: Bytes, length: nat)
    requires |nonce| >= 13 && 4 <= m <= 16 && m % 2 == 0 && length < 0x1_0000
    ensures var b := FirstBlock(nonce, m, aad, length);
            && b[0] as int == (if aad != [] then 64 else 0) + 8 * ((m - 2) / 2) + 1
            && b[1..14] == nonce[..13]
            && 256 * b[14] as int + b[15] as int == length
  {
    TwoOctets(length);
    var flags := FirstFlags(m, aad);
    assert flags == (if aad != [] then 64 else 0) + 8 * ((m - 2) / 2) + 1 && flags < 256;
    Octet(flags);
    hide Be16, FirstFlags;
    assert FirstBlock(nonce, m, aad, length) == [flags as bv8] + nonce[..13] + Be16(length);
  }

  /** A_i: flags 1, the nonce, the counter. */
  lemma CounterOctets(nonce: Bytes, i: nat)
    requires |nonce| >= 13 && i < 0x1_0000
    ensures var a := CounterBlock(nonce, i);
            a[0] == 1 && a[1..14] == nonce[..13] && 256 * a[14] as int + a[15] as int == i
  {
    TwoOctets(i);
    hide Be16;
  }

  function Concat(blocks: seq<Bytes>): Bytes {
    if blocks == [] then [] else Concat(blocks[..|blocks| - 1]) + blocks[|blocks| - 1]
  }

  lemma {:induction false} ConcatBlocks(s: Bytes, n: nat)
    requires 16 * n <= |s|
    ensures n <= |Blocks(s)| && Concat(Blocks(s)[..n]) == s[..16 * n]
  {
    if n > 0 {
      ConcatBlocks(s, n - 1);
      assert Blocks(s)[..n][..n - 1] == Blocks(s)[..n - 1];
      assert s[..16 * n] == s[..16 * (n - 1)] + s[16 * (n - 1)..16 * n];
    }
  }

  /** Padding adds zeros, fewer than sixteen, up to whole blocks; cutting into blocks keeps everything. */
  lemma PaddedBlocksAre(s: Bytes)
    ensures var blocks := Blocks(Pad(s)); var zeros := 16 * |blocks| - |s|;
            0 <= zeros < 16 && Concat(blocks) == s + Repeat<Byte>(0, zeros)
  {
    var p := Pad(s);
    ConcatBlocks(p, |p| / 16);
    assert Blocks(p)[..|p| / 16] == Blocks(p) && p[..16 * (|p| / 16)] == p;
  }

  /** The additional data goes behind its length in two octets. */
  lemma AadBlocksAre(aad: Bytes)
    requires aad != [] && |aad| < 0xFF00
    ensures var all := Concat(AadBlocks(aad));
            && |all| >= 2 + |aad| && |all| < 2 + |aad| + 16
            && 256 * all[0] as int + all[1] as int == |aad| && all[2..2 + |aad|] == aad
            && forall i :: 2 + |aad| <= i < |all| ==> all[i] == 0
  {
    PaddedBlocksAre(Be16(|aad|) + aad);
    TwoOctets(|aad|);
    hide Be16, Blocks, Pad, Concat;
  }

  /** The tag is the first M octets of the last chaining value, masked with the key stream of counter zero. */
  lemma TagOctets(cipher: Cipher, key: Bytes, nonce: Bytes, m: nat, aad: Bytes, payload: Bytes, i: nat)
    requires |nonce| >= 13 && 4 <= m <= 16 && |payload| < 0x1_0000 && |aad| < 0xFF00 && i < m
    ensures Tag(cipher, key, nonce, m, aad, payload)[i]
            == Mac(cipher, key, nonce, m, aad, payload)[i] ^ E(cipher, key, CounterBlock(nonce, 0))[i]
  {
    hide Mac, E;
  }

  /** Octet `i` of the message meets octet `i mod 16` of the key stream block numbered from one. */
  lemma CipherOctets(cipher: Cipher, key: Bytes, nonce: Bytes, text: Bytes, i: nat)
    requires |nonce| >= 13 && |text| < 0x1_0000 && i < |text|
    ensures Ctr(cipher, key, nonce, text)[i]
            == text[i] ^ E(cipher, key, CounterBlock(nonce, i / 16 + 1))[i % 16]
  {
    hide E;
  }

  /** Cipher block chaining from the front: each block is added to the state, which is then encrypted. */
  ghost function Chained(cipher: Cipher, key: Bytes, x: Bytes, blocks: seq<Bytes>): (r: Bytes)
    requires |x| == BLOCK && forall i :: 0 <= i < |blocks| ==> |blocks[i]| == BLOCK
    ensures |r| == BLOCK
    decreases |blocks|
  {
    if blocks == [] then x else Chained(cipher, key, E(cipher, key, Xor(x, blocks[0])), blocks[1..])
  }

  lemma {:induction false} ChainIsChained(cipher: Cipher, key: Bytes, x: Bytes, blocks: seq<Bytes>)
    requires |x| == BLOCK && forall i :: 0 <= i < |blocks| ==> |blocks[i]| == BLOCK
    ensures Chain(cipher, key, x, blocks) == Chained(cipher, key, x, blocks)
    decreases |blocks|
  {
    if blocks != [] {
      var b, rest := blocks[0], blocks[1..];
      hide E, Xor;
      ChainAppend(cipher, key, x, [b], rest);
      ChainOne(cipher, key, x, b);
      assert [b] + rest == blocks;
      ChainIsChained(cipher, key, E(cipher, key, Xor(x, b)), rest);
    }
  }

  /** The authentication value: B_0 encrypted, then the data's blocks and the message's. */
  lemma MacIs(cipher: Cipher, key: Bytes, nonce: Bytes, m: nat, aad: Bytes, payload: Bytes)
    requires |nonce| >= 13 && 4 <= m <= 16 && |payload| < 0x1_0000 && |aad| < 0xFF00
    ensures Mac(cipher, key, nonce, m, aad, payload)
            == Chained(cipher, key, E(cipher, key, FirstBlock(nonce, m, aad, |payload|)),
                       AadBlocks(aad) + Blocks(Pad(payload)))
    ensures aad == [] ==> AadBlocks(aad) == []
  {
    ChainIsChained(cipher, key, E(cipher, key, FirstBlock(nonce, m, aad, |payload|)),
                   AadBlocks(aad) + Blocks(Pad(payload)));
    hide Chain, Chained, E, FirstBlock, Blocks, Pad;
  }

  /** The parameters that are accepted: an AES key of 128 or 256 bits, and an even tag length that fits. */
  lemma AcceptedExactly(key: Bytes, nonce: Bytes, m: nat, length: nat, aad: Bytes, tagCapacity: nat)
    ensures ValidParameters(key, nonce, m, length, aad, tagCapacity)
            <==> 8 * |key| in {128, 256} && |nonce| > 12 && m in {4, 6, 8, 10, 12, 14, 16} && m <= tagCapacity
                 && length <= 65_535 && |aad| < 31
    ensures MAX_CCM_PAYLOAD == 255 - 16 - 12
  {
  }
}
