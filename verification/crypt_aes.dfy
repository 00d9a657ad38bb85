/**
 What an AES cipher of a chain puts out, byte by byte: the IV, and then the blocks of CBC under the
 cipher of FIPS 197.
 */
module CryptAes {
  import opened Options
  import opened AesBlock
  import opened AesModes
  import opened CryptModel
  import AesChains
  import AesCipher
  import AesFips

  // With a key of 32 * n bits there are n + 6 rounds.
  lemma RoundsAre(n: nat)
    requires AesSize(n)
    ensures Rounds(n) == n / 32 + 6
  {
  }

  // The cipher is asked for a key and an IV, and both are there.
  predicate Given(s: Setting, k: Key, iv: Block) {
    KeyOf(s, CryptModel.AES) == Some(KeyAndIV(k, iv)) && AesSize(k.length)
  }

  // The IV comes first: the one given, or a random one when its first byte is 0.
  lemma OutputStarts(s: Setting, k: Key, iv: Block, random: Block, p: Bytes)
    requires Given(s, k, iv) && p != []
    ensures var out := EncryptOne(s, CryptModel.AES, random, p);
      out.Some? && |out.value| == 16 + 16 * (|p| / 16 + 1) && out.value[..16] == if iv[0] != 0 then iv else random
  {
    hide CbcEnc, AesOf, KeyOf;
    AesChains.PadIs(p, 0);
    hide Pad;
    var first: Block := FirstIV(iv, random);
    var c := CbcEnc(AesOf(s, k), first, Pad(p));
    assert (first + c)[..16] == first;
  }

  // The key schedule of 16 * (n + 1) bytes is there for n rounds.
  lemma Scheduled(s: Setting, k: Key)
    requires AesSize(k.length)
    ensures AesCipher.Keyed(s.expand(k.sKey[..k.length / 8]), k.length / 32 + 6)
  {
  }

  // Each block after it is that of the cipher on the padded text, the block before it added.
  lemma OutputBlock(s: Setting, k: Key, iv: Block, random: Block, p: Bytes, text: Bytes, out: Bytes, j: nat, b: Block)
    requires Given(s, k, iv) && p != [] && EncryptOne(s, CryptModel.AES, random, p) == Some(out)
    requires text == Pad(p) && |text| == 16 * (|p| / 16 + 1) && |out| == 16 + |text| && j <= |p| / 16
    requires forall i | 0 <= i < 16 :: b[i] == text[16 * j + i] ^ out[16 * j + i]
    requires AesCipher.Keyed(s.expand(k.sKey[..k.length / 8]), k.length / 32 + 6)
    ensures out[16 * j + 16..16 * j + 32] ==
            AesFips.Out(AesFips.CipherOf(AesFips.In(b), s.expand(k.sKey[..k.length / 8]), k.length / 32 + 6))
  {
    hide CbcEnc, Pad, KeyOf, AesCipher.Encrypt, AesFips.Out, AesFips.In, AesFips.CipherOf;
    var rk := s.expand(k.sKey[..k.length / 8]);
    var first: Block := FirstIV(iv, random);
    var aes := AesOf(s, k);
    var c := CbcEnc(aes, first, text);
    assert out == first + c;
    forall i | 0 <= i < 16 ensures b[i] == text[16 * j + i] ^ if j == 0 then first[i] else c[16 * (j - 1) + i] {}
    AesChains.CbcBlock(aes, first, text, j, b);
    assert out[16 * j + 16..16 * j + 32] == c[16 * j..16 * j + 16];
    RoundsAre(k.length);
    AesFips.EncryptIs(rk, Rounds(k.length), b);
  }
}
