/**
 SHA-256 of src/crypt/sha256.c: sections 4.1.2, 4.2.2, 5.3.3 and 6.2 of FIPS 180-4 as functions,
 and the context that computes them over any sequence of updates, with a schedule of sixteen
 words overwritten in place.
 */
module Sha256 {
  import opened ShaStream

  type Regs = s: seq<bv32> | |s| == 8 witness seq(8, _ => 0)

  // ----- the functions of the standard -----

  function BigSigma0(x: bv32): bv32 { x.RotateRight(2) ^ x.RotateRight(13) ^ x.RotateRight(22) }
  function BigSigma1(x: bv32): bv32 { x.RotateRight(6) ^ x.RotateRight(11) ^ x.RotateRight(25) }
  function SmallSigma0(x: bv32): bv32 { x.RotateRight(7) ^ x.RotateRight(18) ^ (x >> 3) }
  function SmallSigma1(x: bv32): bv32 { x.RotateRight(17) ^ x.RotateRight(19) ^ (x >> 10) }

  const K: seq<bv32> :=
    [0x428A2F98, 0x71374491, 0xB5C0FBCF, 0xE9B5DBA5, 0x3956C25B, 0x59F111F1, 0x923F82A4, 0xAB1C5ED5] +
    [0xD807AA98, 0x12835B01, 0x243185BE, 0x550C7DC3, 0x72BE5D74, 0x80DEB1FE, 0x9BDC06A7, 0xC19BF174] +
    [0xE49B69C1, 0xEFBE4786, 0x0FC19DC6, 0x240CA1CC, 0x2DE92C6F, 0x4A7484AA, 0x5CB0A9DC, 0x76F988DA] +
    [0x983E5152, 0xA831C66D, 0xB00327C8, 0xBF597FC7, 0xC6E00BF3, 0xD5A79147, 0x06CA6351, 0x14292967] +
    [0x27B70A85, 0x2E1B2138, 0x4D2C6DFC, 0x53380D13, 0x650A7354, 0x766A0ABB, 0x81C2C92E, 0x92722C85] +
    [0xA2BFE8A1, 0xA81A664B, 0xC24B8B70, 0xC76C51A3, 0xD192E819, 0xD6990624, 0xF40E3585, 0x106AA070] +
    [0x19A4C116, 0x1E376C08, 0x2748774C, 0x34B0BCB5, 0x391C0CB3, 0x4ED8AA4A, 0x5B9CCA4F, 0x682E6FF3] +
    [0x748F82EE, 0x78A5636F, 0x84C87814, 0x8CC70208, 0x90BEFFFA, 0xA4506CEB, 0xBEF9A3F7, 0xC67178F2]

  const START: seq<bv32> := [
    0x6A09E667, 0xBB67AE85, 0x3C6EF372, 0xA54FF53A, 0x510E527F, 0x9B05688C, 0x1F83D9AB, 0x5BE0CD19
  ]

  // Addition modulo 2^32.
  function Plus4(x: bv32, y: bv32, z: bv32, u: bv32): bv32 { x + y + z + u }

  // The message schedule.
  function W(b: Chunk, t: nat): bv32 {
    if t < 16 then WordAt(b, t)
    else Plus4(SmallSigma1(W(b, t - 2)), W(b, t - 7), SmallSigma0(W(b, t - 15)), W(b, t - 16))
  }

  // One step on the working variables a to h.
  function Step(r: Regs, k: bv32, w: bv32): Regs {
    var t1 := Plus5(r[7], BigSigma1(r[4]), Ch(r[4], r[5], r[6]), k, w);
    var t2 := Plus(BigSigma0(r[0]), Maj(r[0], r[1], r[2]));
    [Plus(t1, t2), r[0], r[1], r[2], Plus(r[3], t1), r[4], r[5], r[6]]
  }

  function Steps(r: Regs, b: Chunk, t: nat): Regs
    requires t <= 64
  {
    if t == 0 then r else Step(Steps(r, b, t - 1), K[t - 1], W(b, t - 1))
  }

  function Added(r: Regs, s: Regs): Regs {
    seq(8, i requires 0 <= i < 8 => Plus(r[i], s[i]))
  }

  function Compress(h: Regs, b: Chunk): Regs { Added(h, Steps(h, b, 64)) }

  function Start(): Regs { START }

  function Hash(m: Bytes): Regs { Fold(Compress, Start(), Padded(m)) }

  // The digest of a message.
  function Digest(m: Bytes): (d: Bytes)
    ensures |d| == 32
  {
    AllBytes(Hash(m))
  }

  // ----- the macros of the source -----

  function MacroSigma1(x: bv32): bv32 { ((x >> 2) | (x << 30)) ^ ((x >> 13) | (x << 19)) ^ ((x >> 22) | (x << 10)) }
  function MacroSigma2(x: bv32): bv32 { ((x >> 6) | (x << 26)) ^ ((x >> 11) | (x << 21)) ^ ((x >> 25) | (x << 7)) }
  function MacroSigma3(x: bv32): bv32 { ((x >> 7) | (x << 25)) ^ ((x >> 18) | (x << 14)) ^ (x >> 3) }
  function MacroSigma4(x: bv32): bv32 { ((x >> 17) | (x << 15)) ^ ((x >> 19) | (x << 13)) ^ (x >> 10) }
  function MacroCh(x: bv32, y: bv32, z: bv32): bv32 { (x & y) | (!x & z) }
  function MacroMaj(x: bv32, y: bv32, z: bv32): bv32 { (x & y) | (x & z) | (y & z) }

  lemma ChMacro(x: bv32, y: bv32, z: bv32)
    ensures MacroCh(x, y, z) == Ch(x, y, z)
  {
    OrIsXor(x & y, !x & z);
  }

  lemma MajOr(x: bv32, y: bv32, z: bv32)
    ensures MacroMaj(x, y, z) == MajMiddle(x, y, z)
  {
  }

  lemma MajMacro(x: bv32, y: bv32, z: bv32)
    ensures MacroMaj(x, y, z) == Maj(x, y, z)
  {
    hide MacroMaj, MajMiddle, Maj;
    MajOr(x, y, z);
    MajFromMiddle(x, y, z);
  }

  lemma SigmaMacros(x: bv32)
    ensures MacroSigma1(x) == BigSigma0(x) && MacroSigma2(x) == BigSigma1(x)
    ensures MacroSigma3(x) == SmallSigma0(x) && MacroSigma4(x) == SmallSigma1(x)
  {
  }

  // ======================= the block in place =======================

  // The sixteen words hold the schedule from `base` on, each at its number modulo 16.
  ghost predicate Window(w: seq<bv32>, b: Chunk, base: nat) {
    |w| == 16 && forall t | base <= t < base + 16 :: w[t % 16] == W(b, t)
  }

  lemma Elsewhere(t: nat, base: nat)
    requires base < t < base + 16
    ensures t % 16 != base % 16
  {
  }

  lemma WindowMoves(w: seq<bv32>, b: Chunk, base: nat)
    requires Window(w, b, base)
    ensures Window(w[base % 16 := W(b, base + 16)], b, base + 1)
  {
    hide W;
    var v := w[base % 16 := W(b, base + 16)];
    forall t | base + 1 <= t < base + 17 ensures v[t % 16] == W(b, t) {
      if t < base + 16 { Elsewhere(t, base); } else { assert t % 16 == base % 16; }
    }
  }

  function PlusTo(u: bv32, x: bv32, y: bv32, z: bv32): bv32 { u + (x + y + z) }

  lemma PlusEquals(x: bv32, y: bv32, z: bv32, u: bv32)
    ensures PlusTo(u, x, y, z) == Plus4(x, y, z, u)
  {
  }

  // XSHA_UPPER(i) += XSHA_SIGMA4(XSHA_UPPER(i + 14)) + XSHA_UPPER(i + 9) + XSHA_SIGMA3(XSHA_UPPER(i + 1))
  function Upper(w0: bv32, w1: bv32, w9: bv32, w14: bv32): bv32 { PlusTo(w0, MacroSigma4(w14), w9, MacroSigma3(w1)) }

  lemma UpperIs(w0: bv32, w1: bv32, w9: bv32, w14: bv32)
    ensures Upper(w0, w1, w9, w14) == Plus4(SmallSigma1(w14), w9, SmallSigma0(w1), w0)
  {
    hide MacroSigma3, MacroSigma4, SmallSigma0, SmallSigma1, Plus4, PlusTo;
    SigmaMacros(w1);
    SigmaMacros(w14);
    PlusEquals(SmallSigma1(w14), w9, SmallSigma0(w1), w0);
  }

  method Extend(w: array<bv32>, i: nat, ghost b: Chunk)
    requires w.Length == 16 && i >= 16 && Window(w[..], b, i - 16)
    modifies w
    ensures Window(w[..], b, i - 15)
  {
    hide *;
    NextWord(w[..], b, i);
    WindowMoves(w[..], b, i - 16);
    ghost var was := w[..];
    w[i % 16] := Upper(w[i % 16], w[(i + 1) % 16], w[(i + 9) % 16], w[(i + 14) % 16]);
    assert w[..] == was[i % 16 := W(b, i)];
  }

  lemma Indices(i: nat)
    requires i >= 16
    ensures (i - 16) % 16 == i % 16 && (i - 2) % 16 == (i + 14) % 16 && (i - 7) % 16 == (i + 9) % 16 && (i - 15) % 16 == (i + 1) % 16
  {
  }

  lemma NextWord(w: seq<bv32>, b: Chunk, i: nat)
    requires i >= 16 && Window(w, b, i - 16)
    ensures |w| == 16 && (i - 16) % 16 == i % 16
    ensures Upper(w[i % 16], w[(i + 1) % 16], w[(i + 9) % 16], w[(i + 14) % 16]) == W(b, i)
  {
    WUnfolds(b, i);
    hide SmallSigma0, SmallSigma1, Upper, W, Plus4;
    Indices(i);
    UpperIs(w[i % 16], w[(i + 1) % 16], w[(i + 9) % 16], w[(i + 14) % 16]);
    assert w[(i - 2) % 16] == W(b, i - 2) && w[(i - 7) % 16] == W(b, i - 7);
    assert w[(i - 15) % 16] == W(b, i - 15) && w[(i - 16) % 16] == W(b, i - 16);
  }

  lemma WUnfolds(b: Chunk, t: nat)
    requires t >= 16
    ensures W(b, t) == Plus4(SmallSigma1(W(b, t - 2)), W(b, t - 7), SmallSigma0(W(b, t - 15)), W(b, t - 16))
  {
    hide Plus4, SmallSigma0, SmallSigma1;
  }

  // The two sums of a round, with the macros of the source.
  function T1(r: Regs, k: bv32, w: bv32): bv32 { Plus5(r[7], MacroSigma2(r[4]), MacroCh(r[4], r[5], r[6]), k, w) }
  function T2(r: Regs): bv32 { Plus(MacroSigma1(r[0]), MacroMaj(r[0], r[1], r[2])) }

  lemma StepParts(r: Regs, k: bv32, w: bv32)
    ensures var s, t := Step(r, k, w), T1(r, k, w);
      s[0] == Plus(t, T2(r)) && s[1] == r[0] && s[2] == r[1] && s[3] == r[2] &&
      s[4] == Plus(r[3], t) && s[5] == r[4] && s[6] == r[5] && s[7] == r[6]
  {
    hide Plus, Plus5, MacroCh, MacroMaj, MacroSigma1, MacroSigma2, Ch, Maj, BigSigma0, BigSigma1;
    SigmaMacros(r[4]);
    SigmaMacros(r[0]);
    ChMacro(r[4], r[5], r[6]);
    MajMacro(r[0], r[1], r[2]);
  }

  // The body of the round loop after the schedule: the registers move up by one.
  method Round(r: array<bv32>, k: bv32, w: bv32)
    requires r.Length == 8
    modifies r
    ensures r[..] == Step(old(r[..]), k, w)
  {
    hide *;
    ghost var next := Step(r[..], k, w);
    StepParts(r[..], k, w);
    var t1, t2 := T1(r[..], k, w), T2(r[..]);
    r[7] := r[6];
    r[6] := r[5];
    r[5] := r[4];
    r[4] := Plus(r[3], t1);
    r[3] := r[2];
    r[2] := r[1];
    r[1] := r[0];
    r[0] := Plus(t1, t2);
    assert r[..] == next;
  }

  // ----- the context -----

  // What a uint64_t keeps of a sum.
  function Low64(n: nat): nat { n % 0x1_0000_0000_0000_0000 }

  lemma Remainder(x: nat, q: nat, r: nat)
    requires x == q * 0x1_0000_0000_0000_0000 + r && r < 0x1_0000_0000_0000_0000
    ensures Low64(x) == r
  {
  }

  lemma Low64Adds(n: nat, k: nat)
    ensures Low64(Low64(n) + k) == Low64(n + k)
  {
    var q, r := n / 0x1_0000_0000_0000_0000, Low64(n);
    var p, t := (r + k) / 0x1_0000_0000_0000_0000, Low64(r + k);
    Remainder(n + k, q + p, t);
  }

  class Context {
    const digest: array<bv32>    // uDigest
    const block: array<bv8>      // uBlock
    var total: nat               // nTotalSize, of 64 bits
    var size: nat                // nSize
    ghost var m: Bytes           // all bytes since Init

    ghost predicate Valid()
      reads this, digest, block
    {
      && digest.Length == 8 && block.Length == 64
      && digest[..] == Fold(Compress, Start(), Done(m))
      && size == |Rest(m)| && block[..size] == Rest(m)
      && total == Low64(|m|)
    }

    constructor ()
      ensures Valid() && m == [] && fresh(digest) && fresh(block)
    {
      digest := new bv32[8](i requires 0 <= i < 8 => START[i]);
      block := new bv8[64](_ => 0);
      total, size, m := 0, 0, [];
      new;
      assert digest[..] == START;
    }

    // XSHA256_ProcessBlock: the words of the block are loaded, and the schedule runs in them.
    method ProcessBlock(ghost b: Chunk)
      requires digest.Length == 8 && block.Length == 64 && block[..] == b
      modifies digest
      ensures digest[..] == Compress(old(digest[..]), b)
    {
      hide Step, W, Window, Plus;
      ghost var h: Regs := digest[..];
      var r := new bv32[8](i requires 0 <= i < 8 reads digest => digest[i]);
      var w := new bv32[16](i requires 0 <= i < 16 reads block => WordAt(block[..], i));
      assert r[..] == h;
      WindowStarts(w[..], b);
      for i := 0 to 64
        invariant digest[..] == h && block[..] == b
        invariant r[..] == Steps(h, b, i)
        invariant Window(w[..], b, if i < 16 then 0 else i - 16)
      {
        if i >= 16 { Extend(w, i, b); }
        WindowAt(w[..], b, if i < 16 then 0 else i - 15, i);
        Round(r, K[i], w[i % 16]);
      }
      AddAll(r, h);
    }

    method AddAll(r: array<bv32>, ghost h: Regs)
      requires digest.Length == 8 && r.Length == 8 && digest[..] == h && r != digest
      modifies digest
      ensures digest[..] == Added(h, r[..])
    {
      hide Plus;
      for i := 0 to 8
        invariant forall k | 0 <= k < 8 :: digest[k] == if k < i then Plus(h[k], r[k]) else h[k]
      {
        digest[i] := Plus(digest[i], r[i]);
      }
    }

    method Update(data: Bytes)
      requires Valid()
      modifies this, digest, block
      ensures Valid() && m == old(m) + data
    {
      hide Compress, Fold, Done, Rest, Start;
      var left: nat, at: nat := |data|, 0;
      assert data[..0] == [] && m + [] == m;
      while left > 0
        invariant Valid() && left + at == |data| && size < 64
        invariant m == old(m) + data[..at]
      {
        var part := if left < 64 - size then left else 64 - size;
        ghost var was := m;
        Take(data[at..at + part]);
        assert was + data[at..at + part] == old(m) + data[..at + part];
        at := at + part;
        left := left - part;
      }
      assert data[..at] == data;
    }

    // One turn of the loop of XSHA256_Update.
    method Take(part: Bytes)
      requires Valid() && size + |part| <= 64
      modifies this, digest, block
      ensures Valid() && m == old(m) + part
    {
      hide Compress, Fold, Done, Rest, Start, Low64;
      SplitGrows(m, part);
      Low64Adds(|m|, |part|);
      CopyIn(part);
      total := Low64(total + |part|);
      size := size + |part|;
      if size == 64 {
        ghost var full := block[..];
        assert block[..64] == full;
        BlockDone(m, part, full);
        ProcessBlock(full);
        size := 0;
      }
      m := m + part;
    }

    // memcpy behind what waits.
    method CopyIn(part: Bytes)
      requires block.Length == 64 && size + |part| <= 64
      modifies block
      ensures block[..size + |part|] == old(block[..size]) + part
      ensures block[size + |part|..] == old(block[size + |part|..])
    {
      for i := 0 to |part|
        invariant block[..size] == old(block[..size]) && block[size..size + i] == part[..i]
        invariant block[size + |part|..] == old(block[size + |part|..])
      {
        block[size + i] := part[i];
        assert block[size..size + i + 1] == part[..i + 1];
      }
    }

    // A word of the union, most significant byte first.
    method PutWord(i: nat, w: bv32)
      requires i < 16 && block.Length == 64
      modifies block
      ensures block[..4 * i] == old(block[..4 * i]) && block[4 * i..4 * i + 4] == WordBytes(w)
    {
      hide WordBytes;
      var b := WordBytes(w);
      block[4 * i], block[4 * i + 1] := b[0], b[1];
      block[4 * i + 2], block[4 * i + 3] := b[2], b[3];
      assert block[4 * i..4 * i + 4] == [b[0], b[1], b[2], b[3]] == b;
    }

    // The padding is the front of a table of 0x80 and zeros; the length follows it.
    method Final() returns (d: Bytes)
      requires Valid()
      modifies this, digest, block
      ensures d == Digest(old(m))
    {
      hide Compress, Fold, LengthBytes, AllBytes, Done, Rest, Start, WordBytes, Padded, Padding;
      ghost var message := m;
      var padding := if size < 56 then 56 - size else 120 - size;
      var bits := Low64(total * 8);
      PaddingIs(message, size, padding);
      LengthIs(|message|, total, bits);
      Update([0x80] + seq(padding - 1, _ => 0));
      PutWord(14, ToWord(bits / 0x1_0000_0000));
      PutWord(15, ToWord(bits));
      ghost var last := block[..];
      assert last == last[..56] + last[56..60] + last[60..64];
      LastBlock(message, last);
      ProcessBlock(last);
      d := AllBytes(digest[..]);
    }
  }

  lemma BlockDone(m: Bytes, part: Bytes, full: Chunk)
    requires full == Rest(m) + part
    ensures Fold(Compress, Start(), Done(m + part)) == Compress(Fold(Compress, Start(), Done(m)), full)
  {
    hide Compress, Fold, Done, Rest, Start;
    SplitGrows(m, part);
    FoldAppend<Regs>(Compress, Start(), Done(m), full);
    FoldOne<Regs>(Compress, Fold(Compress, Start(), Done(m)), full);
  }

  lemma WindowStarts(w: seq<bv32>, b: Chunk)
    requires |w| == 16 && forall i | 0 <= i < 16 :: w[i] == WordAt(b, i)
    ensures Window(w, b, 0)
  {
    hide WordAt;
  }

  lemma WindowAt(w: seq<bv32>, b: Chunk, base: nat, t: nat)
    requires Window(w, b, base) && base <= t < base + 16
    ensures |w| == 16 && w[t % 16] == W(b, t)
  {
    hide W;
  }

  // The padding of the source, and what waits once it is in.
  lemma PaddingIs(m: Bytes, size: nat, padding: nat)
    requires size == |Rest(m)| && padding == (if size < 56 then 56 - size else 120 - size)
    ensures 1 <= padding <= 64 && [0x80] + seq(padding - 1, _ => 0) == Padding(|m|) && |Rest(m + Padding(|m|))| == 56
  {
    assert padding == PadLength(|m|);
  }

  lemma LengthIs(n: nat, total: nat, bits: nat)
    requires total == Low64(n) && bits == Low64(total * 8)
    ensures WordBytes(ToWord(bits / 0x1_0000_0000)) + WordBytes(ToWord(bits)) == LengthBytes(n)
  {
    hide WordBytes, ToWord;
    BitsIs(n);
    SameWord(8 * n, bits);
  }

  lemma BitsIs(n: nat)
    ensures Low64(Low64(n) * 8) == Low64(8 * n)
  {
    var q, r := n / 0x1_0000_0000_0000_0000, Low64(n);
    var p, t := r * 8 / 0x1_0000_0000_0000_0000, Low64(r * 8);
    Remainder(8 * n, 8 * q + p, t);
  }

  lemma SameWord(x: nat, y: nat)
    requires y == Low64(x)
    ensures ToWord(x) == ToWord(y) && ToWord(x / 0x1_0000_0000) == ToWord(y / 0x1_0000_0000)
  {
    hide ToWord;
    SameDigits(x, y, x / 0x1_0000_0000_0000_0000);
    ToWordCut(x, y);
    ToWordCut(x / 0x1_0000_0000, y / 0x1_0000_0000);
  }

  lemma SameDigits(x: nat, y: nat, q: nat)
    requires x == q * 0x1_0000_0000_0000_0000 + y
    ensures x % 0x1_0000_0000 == y % 0x1_0000_0000
    ensures x / 0x1_0000_0000 % 0x1_0000_0000 == y / 0x1_0000_0000 % 0x1_0000_0000
  {
    assert x / 0x1_0000_0000 == q * 0x1_0000_0000 + y / 0x1_0000_0000;
  }

  // The last block ends the padded message.
  lemma LastBlock(m: Bytes, last: Chunk)
    requires |Rest(m + Padding(|m|))| == 56 && last == Rest(m + Padding(|m|)) + LengthBytes(|m|)
    ensures Compress(Fold(Compress, Start(), Done(m + Padding(|m|))), last) == Hash(m)
  {
    hide Compress, Fold, Start, Done, Rest, LengthBytes, Padding;
    BlockDone(m + Padding(|m|), LengthBytes(|m|), last);
    SplitGrows(m + Padding(|m|), LengthBytes(|m|));
    WholeIsDone(Padded(m));
  }

  // ======================= streaming =======================

  // Any way of cutting a message into updates gives the digest of the whole.
  method Stream(parts: seq<Bytes>) returns (d: Bytes)
    ensures d == Digest(Concat(parts))
  {
    hide *;
    var c := new Context();
    ConcatNext(parts, 0);
    for i := 0 to |parts|
      invariant c.Valid() && c.m == Concat(parts[..i]) && fresh(c) && fresh(c.digest) && fresh(c.block)
    {
      ConcatNext(parts, i);
      c.Update(parts[i]);
    }
    assert parts[..|parts|] == parts;
    d := c.Final();
  }

  // XSHA256_Compute
  method Compute(input: Bytes) returns (d: Bytes)
    ensures d == Digest(input)
  {
    hide *;
    var c := new Context();
    c.Update(input);
    assert [] + input == input;
    d := c.Final();
  }
}
