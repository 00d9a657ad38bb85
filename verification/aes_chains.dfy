/**
 The outputs of CBC, CTR and the padding by index: which block goes through the cipher where.
 */
module AesChains {
  import opened AesBlock
  import opened AesModes
  import opened ByteTools

  // ----- CBC -----

  // Block j of an output is that of block j of the input and what came out before it, or the IV.
  lemma {:induction false} CbcBlock(k: Cipher, iv: Block, p: Bytes, j: nat, b: Block)
    requires |p| % 16 == 0 && 16 * j < |p|
    requires forall i | 0 <= i < 16 ::
      b[i] == p[16 * j + i] ^ if j == 0 then iv[i] else CbcEnc(k, iv, p)[16 * (j - 1) + i]
    ensures CbcEnc(k, iv, p)[16 * j..16 * j + 16] == k.enc(b)
    decreases j
  {
    var first: Block := Xor(p[..16], iv);
    var c: Block := k.enc(first);
    var rest := CbcEnc(k, c, p[16..]);
    assert CbcEnc(k, iv, p) == c + rest;
    hide CbcEnc, Xor;
    if j == 0 {
      assert b == first by { XorAt(p[..16], iv); }
    } else {
      forall i | 0 <= i < 16 ensures b[i] == p[16..][16 * (j - 1) + i] ^ if j == 1 then c[i] else rest[16 * (j - 2) + i] {}
      CbcBlock(k, c, p[16..], j - 1, b);
      assert (c + rest)[16 * j..16 * j + 16] == rest[16 * (j - 1)..16 * (j - 1) + 16];
    }
  }

  lemma XorAt(a: Bytes, b: Bytes)
    requires |a| <= |b|
    ensures forall i | 0 <= i < |a| :: Xor(a, b)[i] == a[i] ^ b[i]
  {
  }

  // The padding fills the last block, or a block of its own, with its length.
  lemma PadIs(p: Bytes, i: nat)
    requires i < |Pad(p)|
    ensures |Pad(p)| == 16 * (|p| / 16 + 1)
    ensures if i < |p| then Pad(p)[i] == p[i] else Value(Pad(p)[i]) == 16 - |p| % 16
  {
    hide Byte, Value;
    var n := PadLength(|p|);
    ByteIs(n, Byte(n));
  }

  // ----- CTR -----

  // The first counter is the tag without the first bits of its last two words.
  lemma FirstCounterIs(siv: Block, i: nat)
    requires i < 16
    ensures Value(FirstCounter(siv)[i]) == if i == 8 || i == 12 then Value(siv[i]) % 128 else Value(siv[i])
  {
    LowSeven(siv[8]);
    LowSeven(siv[12]);
    hide Value;
  }

  lemma LowSeven(x: bv8) ensures Value(x & 0x7f) == Value(x) % 128 {}

  // c is the counter n blocks on: its last four bytes have counted modulo 2^32.
  ghost predicate Counted(counter: Block, n: nat, c: Block) {
    c[..12] == counter[..12] && ReadHeader(c[12..]) == (ReadHeader(counter[12..]) + n) % 0x1_0000_0000
  }

  lemma CountedSame(counter: Block, n: nat, c: Block, d: Block)
    requires Counted(counter, n, c) && Counted(counter, n, d)
    ensures c == d
  {
    hide ReadHeader, Value;
    HeaderInjective(c[12..], d[12..]);
    assert c == c[..12] + c[12..] && d == d[..12] + d[12..];
  }

  lemma HeaderInjective(c: Bytes, d: Bytes)
    requires |c| == |d| == 4 && ReadHeader(c) == ReadHeader(d)
    ensures c == d
  {
    hide Value;
    DigitsSame(Value(c[0]), Value(c[1]), Value(c[2]), Value(c[3]), Value(d[0]), Value(d[1]), Value(d[2]), Value(d[3]));
    ValueInjective(c[0], d[0]);
    ValueInjective(c[1], d[1]);
    ValueInjective(c[2], d[2]);
    ValueInjective(c[3], d[3]);
  }

  lemma ValueInjective(x: bv8, y: bv8)
    ensures Value(x) == Value(y) ==> x == y
  {
    hide Value, Byte;
    ByteIs(Value(y), x);
    ByteIs(Value(y), y);
  }

  lemma DigitsSame(a: nat, b: nat, c: nat, d: nat, w: nat, x: nat, y: nat, z: nat)
    requires a < 256 && b < 256 && c < 256 && d < 256 && w < 256 && x < 256 && y < 256 && z < 256
    requires a * 0x1000000 + b * 0x10000 + c * 0x100 + d == w * 0x1000000 + x * 0x10000 + y * 0x100 + z
    ensures a == w && b == x && c == y && d == z
  {
  }

  // Byte i is under byte i % 16 of the counter i / 16 blocks on.
  lemma {:induction false} CtrByte(k: Cipher, counter: Block, input: Bytes, i: nat, c: Block)
    requires i < |input| && Counted(counter, i / 16, c)
    ensures Ctr(k, counter, input)[i] == input[i] ^ k.enc(c)[i % 16]
    decreases i
  {
    hide Xor, Next, Counted;
    if i < 16 {
      CountedNone(counter);
      CountedSame(counter, 0, c, counter);
      if |input| <= 16 { XorAt(input, k.enc(counter)); } else { XorAt(input[..16], k.enc(counter)); }
    } else {
      CountedNext(counter, i / 16, c);
      CtrByte(k, Next(counter), input[16..], i - 16, c);
    }
  }

  lemma CountedNone(counter: Block)
    ensures Counted(counter, 0, counter)
  {
    hide ReadHeader;
  }

  lemma CountedNext(counter: Block, n: nat, c: Block)
    requires n > 0 && Counted(counter, n, c)
    ensures Counted(Next(counter), n - 1, c)
  {
    hide ReadHeader, Next;
    NextCounts(counter);
  }
}
