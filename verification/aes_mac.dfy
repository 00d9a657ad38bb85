/**
 CMAC and S2V apart from the functions that compute them step by step: doubling as multiplication in
 the field of 2^128 elements, CMAC as the last block of CBC (RFC 4493), and S2V over it (RFC 5297).
 */
module AesMac {
  import opened AesBlock
  import opened AesModes
  import opened ByteTools
  import opened Options

  // ======================= doubling =======================

  lemma ShiftInValue(x: bv8, y: bv8)
    ensures Value(ShiftIn(x, y)) == 2 * Value(x) % 256 + Value(y) / 128
  {
    ShiftedValue(x);
    CarryValue(y);
    OrValue(x << 1, y >> 7);
  }

  lemma ShiftedValue(x: bv8) ensures (x << 1) & 1 == 0 && (x << 1) as nat == 2 * (x as nat) % 256 {}
  lemma CarryValue(y: bv8) ensures y >> 7 < 2 && (y >> 7) as nat == y as nat / 128 {}

  lemma OrValue(x: bv8, y: bv8)
    requires x & 1 == 0 && y < 2
    ensures (x | y) as nat == x as nat + y as nat
  {
  }

  // The block one bit to the left, without the bit that falls out.
  function Shifted(b: Block): Block {
    seq(16, i requires 0 <= i < 16 => ShiftIn(b[i], if i < 15 then b[i + 1] else 0))
  }

  lemma ShiftedByte(b: Block, i: nat)
    requires i < 16
    ensures Value(Shifted(b)[i]) == 2 * Value(b[i]) % 256 + if i < 15 then Value(b[i + 1]) / 128 else 0
  {
    hide ShiftIn, Value;
    ShiftInValue(b[i], if i < 15 then b[i + 1] else 0);
    ValueZero();
  }

  lemma ValueZero() ensures Value(0) == 0 {}

  // The first k bytes, with the bit that falls out and the bit that comes in.
  lemma {:induction false} ShiftedNumber(b: Block, k: nat)
    requires k <= 16
    ensures Number(Shifted(b)[..k]) + Power(k) * (Value(b[0]) / 128) ==
            2 * Number(b[..k]) + if k < 16 then Value(b[k]) / 128 else 0
  {
    hide Value, Number, Power, Shifted;
    PowerNext(k);
    if k == 0 {
      NoBytes(Shifted(b)[..0]);
      NoBytes(b[..0]);
    } else {
      ShiftedNumber(b, k - 1);
      ShiftedByte(b, k - 1);
      var c, d := b[..k], Shifted(b)[..k];
      NumberNext(c);
      NumberNext(d);
      assert c[..k - 1] == b[..k - 1] && d[..k - 1] == Shifted(b)[..k - 1];
      Carried(Number(d[..k - 1]), Power(k - 1), Value(b[0]) / 128, Number(c[..k - 1]), Value(b[k - 1]), Value(d[k - 1]),
              if k < 16 then Value(b[k]) / 128 else 0);
    }
  }

  lemma Carried(d: nat, p: nat, t: nat, c: nat, x: nat, y: nat, bit: nat)
    requires d + p * t == 2 * c + x / 128 && x < 256 && y == 2 * x % 256 + bit
    ensures d * 256 + y + 256 * p * t == 2 * (c * 256 + x) + bit
  {
    assert 256 * p * t == 256 * (p * t);
  }

  lemma DblIs(b: Block)
    ensures Dbl(b) == if Value(b[0]) >= 128 then Shifted(b)[15 := Shifted(b)[15] ^ 0x87] else Shifted(b)
  {
    LastIs(b[15], b[0]);
    hide ShiftIn, ShiftLast, Value;
    var s := Shifted(b);
    forall i | 0 <= i < 15 ensures Dbl(b)[i] == s[i] {}
    assert Dbl(b) == s[15 := Dbl(b)[15]];
  }

  lemma LastIs(x: bv8, first: bv8)
    ensures ShiftLast(x, first) == if Value(first) >= 128 then ShiftIn(x, 0) ^ 0x87 else ShiftIn(x, 0)
  {
    ShiftLeftOr(x);
  }

  lemma ShiftLeftOr(x: bv8)
    ensures ShiftIn(x, 0) == x << 1
  {
  }

  lemma PowersOf16()
    ensures Power(15) == 0x100_0000_0000_0000_0000_0000_0000_0000 && Power(16) == 0x1_0000_0000_0000_0000_0000_0000_0000_0000
  {
    assert Power(4) == 0x1_0000_0000;
    assert Power(8) == 0x1_0000_0000_0000_0000;
    assert Power(12) == 0x1_0000_0000_0000_0000_0000_0000;
  }

  // Doubling multiplies by x modulo x^128 + x^7 + x^2 + x + 1: the number of the block is doubled
  // and, when that takes 129 bits, the first one goes and 0x87 is added to the last byte.
  lemma Doubling(b: Block) returns (d: Block)
    ensures Number(b) < 0x8000_0000_0000_0000_0000_0000_0000_0000 ==> Number(d) == 2 * Number(b) && Dbl(b) == d
    ensures Number(b) >= 0x8000_0000_0000_0000_0000_0000_0000_0000 ==>
      Number(d) == 2 * Number(b) - 0x1_0000_0000_0000_0000_0000_0000_0000_0000 && Dbl(b) == d[15 := d[15] ^ 0x87]
  {
    hide Value, Number, Power, Shifted, Dbl;
    d := Shifted(b);
    PowersOf16();
    DblIs(b);
    ShiftedNumber(b, 16);
    FirstByte(b);
    assert b[..16] == b && d[..16] == d;
  }

  // ======================= CMAC =======================

  function Zeros(): Block { seq(16, _ => 0) }

  // A message from byte i on: its bytes, a 1 bit, and 0 bits.
  function PaddedAt(m: Bytes, i: nat): bv8 { if i < |m| then m[i] else if i == |m| then 0x80 else 0 }

  // Section 2.3 of RFC 4493: L doubled once for a message of whole blocks, else twice.
  function SubKey(k: Cipher, whole: bool): Block {
    var l := k.enc(Zeros());
    if whole then Dbl(l) else Dbl(Dbl(l))
  }

  // Section 2.4: x is m in as many blocks as it takes, and at least one, with the last one padded
  // unless m ends with it, and masked.
  ghost predicate Prepared(k: Cipher, m: Bytes, x: Bytes) {
    && |x| % 16 == 0 && |x| >= 16 && |m| <= |x| && (|x| == 16 || |m| > |x| - 16)
    && (forall i | 0 <= i < |x| - 16 :: x[i] == m[i])
    && (forall i | |x| - 16 <= i < |x| :: x[i] == PaddedAt(m, i) ^ SubKey(k, |m| == |x|)[i - (|x| - 16)])
  }

  lemma LastBlockIs(k: Cipher, m: Bytes, x: Bytes)
    requires Prepared(k, m, x) && |x| == 16
    ensures x == LastBlock(k, m)
  {
    hide Dbl, PaddedAt, Padded;
    var sub := SubKey(k, |m| == 16);
    assert sub == if |m| == 16 then K1(k) else K2(k);
    hide SubKey, K1, K2;
    if |m| == 16 {
      forall i | 0 <= i < 16 ensures x[i] == m[i] ^ sub[i] { PaddedInside(m, i); }
    } else {
      PaddedIs(m);
      forall i | 0 <= i < 16 ensures x[i] == Padded(m)[i] ^ sub[i] {}
    }
  }

  lemma PaddedInside(m: Bytes, i: nat)
    requires i < |m|
    ensures PaddedAt(m, i) == m[i]
  {
  }

  lemma PaddedIs(m: Bytes)
    requires |m| < 16
    ensures forall i | 0 <= i < 16 :: Padded(m)[i] == PaddedAt(m, i)
  {
  }

  lemma XorSwaps(a: Block, b: Block)
    ensures Xor(a, b) == Xor(b, a)
  {
    forall i | 0 <= i < 16 ensures Xor(a, b)[i] == Xor(b, a)[i] { XorComm(a[i], b[i]); }
  }

  lemma XorComm(x: bv8, y: bv8) ensures x ^ y == y ^ x {}

  lemma PreparedRest(k: Cipher, m: Bytes, x: Bytes)
    requires Prepared(k, m, x) && |x| > 16
    ensures |m| > 16 && x[..16] == m[..16] && Prepared(k, m[16..], x[16..])
  {
    hide SubKey;
    var m1, x1 := m[16..], x[16..];
    forall i | |x1| - 16 <= i < |x1| ensures x1[i] == PaddedAt(m1, i) ^ SubKey(k, |m1| == |x1|)[i - (|x1| - 16)] {
      assert PaddedAt(m1, i) == PaddedAt(m, i + 16);
    }
  }

  lemma {:induction false} ChainEnds(k: Cipher, y: Block, m: Bytes, x: Bytes)
    requires Prepared(k, m, x)
    ensures CmacFrom(k, y, m) == CbcEnc(k, y, x)[|x| - 16..]
    decreases |x|
  {
    assert |x| >= 16 && (|x| == 16 ==> |m| <= 16);
    hide Xor, LastBlock, Prepared;
    var head: Block := x[..16];
    var c := k.enc(Xor(head, y));
    XorSwaps(head, y);
    if |x| == 16 {
      LastBlockIs(k, m, x);
      assert head == x && x[16..] == [];
      assert CbcEnc(k, y, x) == c + [];
    } else {
      PreparedRest(k, m, x);
      ChainEnds(k, c, m[16..], x[16..]);
    }
  }

  // CMAC is the last block of CBC, from an IV of zeros.
  lemma CmacIs(k: Cipher, m: Bytes, x: Bytes)
    requires Prepared(k, m, x)
    ensures Cmac(k, m) == CbcEnc(k, Zeros(), x)[|x| - 16..]
  {
    hide CmacFrom, CbcEnc, Prepared;
    ChainEnds(k, Zeros(), m, x);
  }

  // ======================= S2V =======================

  // Section 2.4 of RFC 5297: D for no associated data, or for the nonce.
  ghost predicate IsD(k: Cipher, nonce: Option<Block>, d: Block) {
    forall i | 0 <= i < 16 ::
      d[i] == match nonce
        case None => Cmac(k, Zeros())[i]
        case Some(n) => Dbl(Cmac(k, Zeros()))[i] ^ Cmac(k, n)[i]
  }

  // The text with D added to its end, or padded and with D doubled added.
  ghost predicate IsT(p: Bytes, d: Block, t: Bytes) {
    if |p| >= 16 then
      |t| == |p| && forall i | 0 <= i < |p| :: t[i] == if i < |p| - 16 then p[i] else p[i] ^ d[i - (|p| - 16)]
    else
      |t| == 16 && forall i | 0 <= i < 16 :: t[i] == PaddedAt(p, i) ^ Dbl(d)[i]
  }

  lemma S2VIs(k: Cipher, nonce: Option<Block>, p: Bytes, d: Block, t: Bytes)
    requires IsD(k, nonce, d) && IsT(p, d, t)
    ensures S2V(k, nonce, p) == Cmac(k, t)
  {
    hide Cmac, Dbl;
    var zero := Cmac(k, Zeros());
    var d1: Block := if nonce.Some? then Xor(Dbl(zero), Cmac(k, nonce.value)) else zero;
    assert d == d1;
    if |p| >= 16 {
      assert t == p[..|p| - 16] + Xor(p[|p| - 16..], d);
    } else {
      assert t == Xor(Padded(p), Dbl(d));
    }
  }
}
