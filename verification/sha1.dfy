/**
 SHA-1 of src/crypt/sha1.c: sections 4.1.1, 4.2.1, 5.3.1 and 6.1 of FIPS 180-4 as functions, and
 the context that computes them over any sequence of updates, with its count of bits in two words
 and a schedule of sixteen words overwritten in place.
 */
module Sha1 {
  import opened ShaStream

  datatype Regs = Regs(a: bv32, b: bv32, c: bv32, d: bv32, e: bv32)

  // ----- the functions of the standard -----

  function Parity(x: bv32, y: bv32, z: bv32): bv32 { x ^ y ^ z }

  function F(t: nat, x: bv32, y: bv32, z: bv32): bv32 {
    if t < 20 then Ch(x, y, z) else if t < 40 then Parity(x, y, z) else if t < 60 then Maj(x, y, z) else Parity(x, y, z)
  }

  function K(t: nat): bv32 {
    if t < 20 then 0x5A827999 else if t < 40 then 0x6ED9EBA1 else if t < 60 then 0x8F1BBCDC else 0xCA62C1D6
  }

  function Rol1(x: bv32): bv32 { x.RotateLeft(1) }
  function Rol5(x: bv32): bv32 { x.RotateLeft(5) }
  function Rol30(x: bv32): bv32 { x.RotateLeft(30) }
  function Xor4(x: bv32, y: bv32, z: bv32, u: bv32): bv32 { x ^ y ^ z ^ u }

  // The message schedule.
  function W(b: Chunk, t: nat): bv32 {
    if t < 16 then WordAt(b, t) else Rol1(Xor4(W(b, t - 3), W(b, t - 8), W(b, t - 14), W(b, t - 16)))
  }

  function Step(r: Regs, t: nat, w: bv32): Regs {
    Regs(Plus5(Rol5(r.a), F(t, r.b, r.c, r.d), r.e, K(t), w), r.a, Rol30(r.b), r.c, r.d)
  }

  function Steps(r: Regs, b: Chunk, t: nat): Regs {
    if t == 0 then r else Step(Steps(r, b, t - 1), t - 1, W(b, t - 1))
  }

  function Added(r: Regs, s: Regs): Regs {
    Regs(Plus(r.a, s.a), Plus(r.b, s.b), Plus(r.c, s.c), Plus(r.d, s.d), Plus(r.e, s.e))
  }

  function Compress(h: Regs, b: Chunk): Regs { Added(h, Steps(h, b, 80)) }

  function Start(): Regs { Regs(0x67452301, 0xEFCDAB89, 0x98BADCFE, 0x10325476, 0xC3D2E1F0) }

  function Hash(m: Bytes): Regs { Fold(Compress, Start(), Padded(m)) }

  function DigestOf(h: Regs): (d: Bytes)
    ensures |d| == 20
  {
    WordBytes(h.a) + WordBytes(h.b) + WordBytes(h.c) + WordBytes(h.d) + WordBytes(h.e)
  }

  function Digest(m: Bytes): Bytes { DigestOf(Hash(m)) }

  // ----- the macros of the source -----

  function R01(w: bv32, x: bv32, y: bv32): bv32 { (w & (x ^ y)) ^ y }
  function R24(w: bv32, x: bv32, y: bv32): bv32 { w ^ x ^ y }
  function R3I(w: bv32, x: bv32, y: bv32): bv32 { ((w | x) & y) | (w & x) }
  function MacroRol1(x: bv32): bv32 { (x << 1) | (x >> 31) }
  function MacroRol5(x: bv32): bv32 { (x << 5) | (x >> 27) }
  function MacroRol30(x: bv32): bv32 { (x << 30) | (x >> 2) }

  // XSHA1_BLK0 on a little-endian word.
  function MacroSwap(x: bv32): bv32 {
    (((x << 24) | (x >> 8)) & 0xFF00FF00) | (((x << 8) | (x >> 24)) & 0x00FF00FF)
  }

  lemma ChBits(x: bv32, y: bv32, z: bv32)
    ensures (x & (y ^ z)) ^ z == (x & y) ^ (!x & z)
  {
  }

  lemma ChMacro(x: bv32, y: bv32, z: bv32)
    ensures R01(x, y, z) == Ch(x, y, z)
  {
    ChBits(x, y, z);
  }

  lemma MajOr(x: bv32, y: bv32, z: bv32)
    ensures R3I(x, y, z) == MajMiddle(x, y, z)
  {
  }

  lemma MajMacro(x: bv32, y: bv32, z: bv32)
    ensures R3I(x, y, z) == Maj(x, y, z)
  {
    hide R3I, MajMiddle, Maj;
    MajOr(x, y, z);
    MajFromMiddle(x, y, z);
  }

  lemma RolMacros(x: bv32)
    ensures MacroRol1(x) == Rol1(x) && MacroRol5(x) == Rol5(x) && MacroRol30(x) == Rol30(x)
  {
  }

  // Loading a word on a little-endian machine and swapping it is loading it big-endian.
  lemma SwapLoads(b0: bv8, b1: bv8, b2: bv8, b3: bv8)
    ensures MacroSwap(Word(b3, b2, b1, b0)) == Word(b0, b1, b2, b3)
  {
  }

  // The round function that the macros R0 to R4 use at step t.
  function MacroF(t: nat, w: bv32, x: bv32, y: bv32): bv32 {
    if t < 20 then R01(w, x, y) else if t < 40 then R24(w, x, y) else if t < 60 then R3I(w, x, y) else R24(w, x, y)
  }

  lemma FMacro(t: nat, w: bv32, x: bv32, y: bv32)
    ensures MacroF(t, w, x, y) == F(t, w, x, y)
  {
    hide R01, R3I, Ch, Maj;
    ChMacro(w, x, y);
    MajMacro(w, x, y);
  }

  // z += F + BLK + K + ROL(v, 5)
  function MacroSum(z: bv32, f: bv32, w: bv32, k: bv32, v: bv32): bv32 { z + (f + w + k + v) }

  lemma SumMacro(z: bv32, f: bv32, w: bv32, k: bv32, v: bv32)
    ensures MacroSum(z, f, w, k, v) == Plus5(v, f, z, k, w)
  {
  }

  // ======================= the block in place =======================

  function Little(b: Chunk, t: nat): bv32
    requires t < 16
  {
    Word(b[4 * t + 3], b[4 * t + 2], b[4 * t + 1], b[4 * t])
  }

  // Before step i: the last sixteen words of the schedule, each at its number modulo 16, and the
  // words of the block not yet swapped.
  ghost predicate Window(w: seq<bv32>, b: Chunk, i: nat) {
    && |w| == 16
    && (forall t | 0 <= t < i && t + 16 >= i :: w[t % 16] == W(b, t))
    && (forall t | i <= t < 16 :: w[t] == Little(b, t))
  }

  lemma Elsewhere(t: nat, i: nat)
    requires t < i < t + 16
    ensures t % 16 != i % 16
  {
  }

  lemma WindowMoves(w: seq<bv32>, b: Chunk, i: nat)
    requires Window(w, b, i)
    ensures |w| == 16 && Window(w[i % 16 := W(b, i)], b, i + 1)
  {
    hide W, Little;
    var v := w[i % 16 := W(b, i)];
    forall t | 0 <= t < i + 1 && t + 16 >= i + 1 ensures v[t % 16] == W(b, t) {
      if t < i { Elsewhere(t, i); }
    }
  }

  function Rolled(w0: bv32, w2: bv32, w8: bv32, w13: bv32): bv32 { MacroRol1(Xor4(w0, w2, w8, w13)) }

  lemma XorOrder(w0: bv32, w2: bv32, w8: bv32, w13: bv32)
    ensures Xor4(w0, w2, w8, w13) == Xor4(w13, w8, w2, w0)
  {
  }

  lemma Indices(i: nat)
    requires i >= 16
    ensures (i - 16) % 16 == i % 16 && (i - 14) % 16 == (i + 2) % 16 && (i - 8) % 16 == (i + 8) % 16 && (i - 3) % 16 == (i + 13) % 16
  {
  }

  lemma NextWord(w: seq<bv32>, b: Chunk, i: nat)
    requires Window(w, b, i) && i >= 16
    ensures |w| == 16 && Rolled(w[i % 16], w[(i + 2) % 16], w[(i + 8) % 16], w[(i + 13) % 16]) == W(b, i)
  {
    WUnfolds(b, i);
    hide Xor4, MacroRol1, Rol1, W, Little;
    Indices(i);
    var x := Xor4(w[i % 16], w[(i + 2) % 16], w[(i + 8) % 16], w[(i + 13) % 16]);
    XorOrder(w[i % 16], w[(i + 2) % 16], w[(i + 8) % 16], w[(i + 13) % 16]);
    RolMacros(x);
    assert w[(i - 16) % 16] == W(b, i - 16) && w[(i - 14) % 16] == W(b, i - 14);
    assert w[(i - 8) % 16] == W(b, i - 8) && w[(i - 3) % 16] == W(b, i - 3);
  }

  lemma WUnfolds(b: Chunk, t: nat)
    requires t >= 16
    ensures W(b, t) == Rol1(Xor4(W(b, t - 3), W(b, t - 8), W(b, t - 14), W(b, t - 16)))
  {
    hide Rol1, Xor4;
  }

  lemma FirstWord(w: seq<bv32>, b: Chunk, i: nat)
    requires Window(w, b, i) && i < 16
    ensures |w| == 16 && i % 16 == i && MacroSwap(w[i]) == W(b, i)
  {
    hide MacroSwap, Word;
    SwapLoads(b[4 * i], b[4 * i + 1], b[4 * i + 2], b[4 * i + 3]);
  }

  // XSHA1_BLK0 for the first sixteen steps, XSHA1_BLK after them: the word is stored and used.
  method Blk(w: array<bv32>, i: nat, ghost b: Chunk) returns (x: bv32)
    requires w.Length == 16 && Window(w[..], b, i)
    modifies w
    ensures Window(w[..], b, i + 1) && x == W(b, i)
  {
    hide *;
    WindowMoves(w[..], b, i);
    ghost var was := w[..];
    if i < 16 {
      FirstWord(w[..], b, i);
      w[i] := MacroSwap(w[i]);
      x := w[i];
    } else {
      NextWord(w[..], b, i);
      w[i % 16] := Rolled(w[i % 16], w[(i + 2) % 16], w[(i + 8) % 16], w[(i + 13) % 16]);
      x := w[i % 16];
    }
    assert w[..] == was[i % 16 := W(b, i)];
  }

  // One macro of the unrolled rounds: what becomes of z and w.
  method Macro(v: bv32, w: bv32, x: bv32, y: bv32, z: bv32, i: nat, words: array<bv32>, ghost b: Chunk)
    returns (z1: bv32, w1: bv32)
    requires words.Length == 16 && Window(words[..], b, i)
    modifies words
    ensures Window(words[..], b, i + 1)
    ensures Regs(z1, v, w1, x, y) == Step(Regs(v, w, x, y, z), i, W(b, i))
  {
    hide Window, W, F, MacroF, K, MacroSum, Plus5, Rol5, Rol30, MacroRol5, MacroRol30;
    var word := Blk(words, i, b);
    z1 := MacroSum(z, MacroF(i, w, x, y), word, K(i), MacroRol5(v));
    w1 := MacroRol30(w);
    FMacro(i, w, x, y);
    RolMacros(v);
    RolMacros(w);
    SumMacro(z, F(i, w, x, y), word, K(i), Rol5(v));
  }

  // The eighty macros, five at a time: after five the variables are back in their places.
  method Transform(h: Regs, block: Bytes) returns (r: Regs)
    requires |block| == 64
    ensures r == Compress(h, block)
  {
    hide Step, Window, W, Plus;
    ghost var chunk: Chunk := block;
    var words := new bv32[16](i requires 0 <= i < 16 => Little(block, i));
    WindowStarts(words[..], chunk);
    var a, b, c, d, e := h.a, h.b, h.c, h.d, h.e;
    var i := 0;
    while i < 80
      invariant i % 5 == 0 && i <= 80 && Window(words[..], chunk, i)
      invariant Regs(a, b, c, d, e) == Steps(h, chunk, i)
    {
      ghost var r0 := Regs(a, b, c, d, e);
      e, b := Macro(a, b, c, d, e, i, words, chunk);
      d, a := Macro(e, a, b, c, d, i + 1, words, chunk);
      c, e := Macro(d, e, a, b, c, i + 2, words, chunk);
      b, d := Macro(c, d, e, a, b, i + 3, words, chunk);
      a, c := Macro(b, c, d, e, a, i + 4, words, chunk);
      Five(h, chunk, i);
      i := i + 5;
    }
    r := Regs(Plus(h.a, a), Plus(h.b, b), Plus(h.c, c), Plus(h.d, d), Plus(h.e, e));
  }

  lemma Five(h: Regs, b: Chunk, i: nat)
    ensures Steps(h, b, i + 5) ==
      Step(Step(Step(Step(Step(Steps(h, b, i), i, W(b, i)), i + 1, W(b, i + 1)), i + 2, W(b, i + 2)), i + 3, W(b, i + 3)), i + 4, W(b, i + 4))
  {
    hide Step, W;
    assert Steps(h, b, i + 4) == Step(Steps(h, b, i + 3), i + 3, W(b, i + 3));
    assert Steps(h, b, i + 2) == Step(Steps(h, b, i + 1), i + 1, W(b, i + 1));
  }

  lemma WindowStarts(w: seq<bv32>, b: Chunk)
    requires |w| == 16 && forall i | 0 <= i < 16 :: w[i] == Little(b, i)
    ensures Window(w, b, 0)
  {
    hide Little;
  }

  // ======================= the context =======================

  class Context {
    var state: Regs
    var count0: nat            // count[0], of 32 bits
    var count1: nat            // count[1], of 32 bits
    const buffer: array<bv8>
    ghost var m: Bytes         // all bytes since Init

    ghost predicate Valid()
      reads this, buffer
    {
      && buffer.Length == 64
      && state == Fold(Compress, Start(), Done(m))
      && buffer[..|Rest(m)|] == Rest(m)
      && Counted(count0, count1, |m|)
    }

    constructor ()
      ensures Valid() && m == [] && fresh(buffer)
    {
      state, count0, count1, m := Start(), 0, 0, [];
      buffer := new bv8[64](_ => 0);
    }

    // memcpy behind what waits.
    method CopyIn(j: nat, part: Bytes)
      requires buffer.Length == 64 && j + |part| <= 64
      modifies buffer
      ensures buffer[..j + |part|] == old(buffer[..j]) + part
    {
      for i := 0 to |part|
        invariant buffer[..j] == old(buffer[..j]) && buffer[j..j + i] == part[..i]
      {
        buffer[j + i] := part[i];
        assert buffer[j..j + i + 1] == part[..i + 1];
      }
    }

    // A length that fits the source's arithmetic; a call without bytes does nothing.
    method Update(data: Bytes)
      requires Valid() && |data| <= 0x1_0000_0000 - 64
      modifies this, buffer
      ensures Valid() && m == old(m) + data
    {
      hide Compress, Fold, Done, Rest, Start, Counted;
      if |data| == 0 {
        assert m + data == m;
        return;
      }
      var n := |data|;
      CountAdds(count0, count1, |m|, n);
      var j := count0;
      count0 := (count0 + n * 8 % 0x1_0000_0000) % 0x1_0000_0000;
      if count0 < j { count1 := (count1 + 1) % 0x1_0000_0000; }
      count1 := (count1 + n / 0x2000_0000) % 0x1_0000_0000;
      Store(j / 8 % 64, data);
    }

    // The loop over whole blocks, each transformed where it stands.
    method Blocks(from: nat, data: Bytes, ghost was: Bytes) returns (i: nat)
      requires from <= |data| && m == was + data[..from] && Rest(m) == [] && state == Fold(Compress, Start(), Done(m))
      modifies this`state, this`m
      ensures from <= i <= |data| < i + 64 && m == was + data[..i] && Rest(m) == [] && state == Fold(Compress, Start(), Done(m))
    {
      hide Compress, Fold, Done, Rest, Start;
      i := from;
      while i + 63 < |data|
        invariant from <= i <= |data| && m == was + data[..i] && Rest(m) == []
        invariant state == Fold(Compress, Start(), Done(m))
      {
        ghost var block := data[i..i + 64];
        NextPart(was, data, i, 64);
        BlockDone(m, block, block);
        state := Transform(state, data[i..i + 64]);
        m := m + block;
        i := i + 64;
      }
    }

    // The part of XSHA1_Update after the count.
    method Store(at: nat, data: Bytes)
      requires buffer.Length == 64 && at == |Rest(m)| && buffer[..at] == Rest(m)
      requires state == Fold(Compress, Start(), Done(m))
      modifies this`state, this`m, buffer
      ensures m == old(m) + data && state == Fold(Compress, Start(), Done(m)) && buffer[..|Rest(m)|] == Rest(m)
    {
      hide Compress, Fold, Done, Rest, Start;
      var i, j := 0, at;
      ghost var was := m;
      if j + |data| > 63 {
        i := 64 - j;
        CopyIn(j, data[..i]);
        assert buffer[..64] == buffer[..];
        BlockDone(m, data[..i], buffer[..]);
        state := Transform(state, buffer[..]);
        m := m + data[..i];
        i := Blocks(i, data, was);
        j := 0;
      } else {
        assert was + data[..0] == was;
      }
      SplitGrows(m, data[i..]);
      CopyIn(j, data[i..]);
      assert was + data == (was + data[..i]) + data[i..];
      m := m + data[i..];
    }

    method Final() returns (d: Bytes)
      requires Valid()
      modifies this, buffer
      ensures d == Digest(old(m))
    {
      hide Compress, Fold, Done, Rest, Start, Counted, WordBytes, DigestOf, LengthBytes, PadLength;
      ghost var message := m;
      var finalCount := WordBytes(ToWord(count1)) + WordBytes(ToWord(count0));
      CountIsLength(count0, count1, |m|);
      Update([0x80]);
      ghost var zeros := 0;
      assert m == message + ([0x80] + seq(0, _ => 0));
      while count0 / 8 % 64 != 56
        invariant Valid() && m == message + ([0x80] + seq(zeros, _ => 0)) && zeros < PadLength(|message|)
        decreases PadLength(|message|) - zeros
      {
        MoreZeros(count0, count1, |message|, zeros);
        assert seq(zeros + 1, _ => 0 as bv8) == seq(zeros, _ => 0) + [0];
        Update([0]);
        zeros := zeros + 1;
      }
      EnoughZeros(count0, count1, |message|, zeros);
      assert m == message + Padding(|message|);
      Update(finalCount);
      assert m == Padded(message);
      WholeIsDone(m);
      d := DigestOf(state);
    }
  }

  lemma NextPart(was: Bytes, data: Bytes, i: nat, n: nat)
    requires i + n <= |data|
    ensures was + data[..i] + data[i..i + n] == was + data[..i + n]
    ensures [] + data[i..i + n] == data[i..i + n]
  {
  }

  // The two words count the bits of n bytes, modulo 2^64.
  ghost predicate Counted(count0: nat, count1: nat, n: nat) {
    && count0 < 0x1_0000_0000 && count1 < 0x1_0000_0000
    && count1 * 0x1_0000_0000 + count0 == 8 * n % 0x1_0000_0000_0000_0000
  }

  // What XSHA1_Update does to the count, and where it finds the bytes waiting.
  lemma CountAdds(count0: nat, count1: nat, m: nat, n: nat)
    requires Counted(count0, count1, m) && n <= 0x1_0000_0000
    ensures count0 / 8 % 64 == m % 64
    ensures var low := (count0 + n * 8 % 0x1_0000_0000) % 0x1_0000_0000;
      var carried := if low < count0 then (count1 + 1) % 0x1_0000_0000 else count1;
      Counted(low, (carried + n / 0x2000_0000) % 0x1_0000_0000, m + n)
  {
    CountPlace(count0, count1, m);
    var b := 8 * n;
    var low := count0 + b % 0x1_0000_0000;
    assert b / 0x1_0000_0000 == n / 0x2000_0000;
    Carries(count0, count1, b, 8 * m);
  }

  lemma CountPlace(count0: nat, count1: nat, m: nat)
    requires Counted(count0, count1, m)
    ensures count0 / 8 % 64 == m % 64
  {
    var q := 8 * m / 0x1_0000_0000_0000_0000;
    assert 8 * m == q * 0x1_0000_0000_0000_0000 + count1 * 0x1_0000_0000 + count0;
    assert count0 % 8 == 0;
    assert m == q * 0x2000_0000_0000_0000 + count1 * 0x2000_0000 + count0 / 8;
  }

  lemma Carries(count0: nat, count1: nat, b: nat, bits: nat)
    requires count0 < 0x1_0000_0000 && count1 < 0x1_0000_0000 && count1 * 0x1_0000_0000 + count0 == bits % 0x1_0000_0000_0000_0000
    ensures var low := (count0 + b % 0x1_0000_0000) % 0x1_0000_0000;
      var carried := if low < count0 then (count1 + 1) % 0x1_0000_0000 else count1;
      (carried + b / 0x1_0000_0000) % 0x1_0000_0000 * 0x1_0000_0000 + low == (bits + b) % 0x1_0000_0000_0000_0000
  {
    var r, d := b % 0x1_0000_0000, b / 0x1_0000_0000;
    var low, carry := (count0 + r) % 0x1_0000_0000, if count0 + r >= 0x1_0000_0000 then 1 else 0;
    CarryOf(count0, r);
    WordAdded(count0, count1, b, bits);
    HighWraps(bits / 0x1_0000_0000_0000_0000, count1 + carry + d, low);
    if carry == 1 { CarriedHigh(count1, d); }
  }

  lemma CarryOf(a: nat, r: nat)
    requires a < 0x1_0000_0000 && r < 0x1_0000_0000
    ensures (a + r) % 0x1_0000_0000 == a + r - (if a + r >= 0x1_0000_0000 then 0x1_0000_0000 else 0)
    ensures (a + r) % 0x1_0000_0000 < a <==> a + r >= 0x1_0000_0000
  {
  }

  lemma WordAdded(count0: nat, count1: nat, b: nat, bits: nat)
    requires count1 * 0x1_0000_0000 + count0 == bits % 0x1_0000_0000_0000_0000
    ensures bits + b == bits / 0x1_0000_0000_0000_0000 * 0x1_0000_0000_0000_0000 +
                        ((count1 + b / 0x1_0000_0000) * 0x1_0000_0000 + (count0 + b % 0x1_0000_0000))
  {
  }

  lemma CarriedHigh(count1: nat, d: nat)
    ensures ((count1 + 1) % 0x1_0000_0000 + d) % 0x1_0000_0000 == (count1 + 1 + d) % 0x1_0000_0000
  {
  }

  lemma HighWraps(q: nat, high: nat, low: nat)
    requires low < 0x1_0000_0000
    ensures high % 0x1_0000_0000 * 0x1_0000_0000 + low == (q * 0x1_0000_0000_0000_0000 + (high * 0x1_0000_0000 + low)) % 0x1_0000_0000_0000_0000
  {
    var r := high / 0x1_0000_0000;
    assert high * 0x1_0000_0000 + low == r * 0x1_0000_0000_0000_0000 + (high % 0x1_0000_0000 * 0x1_0000_0000 + low);
  }

  lemma BlockDone(m: Bytes, part: Bytes, full: Chunk)
    requires full == Rest(m) + part
    ensures Fold(Compress, Start(), Done(m + part)) == Compress(Fold(Compress, Start(), Done(m)), full) && Rest(m + part) == []
  {
    hide Compress, Fold, Done, Rest, Start;
    SplitGrows(m, part);
    FoldAppend<Regs>(Compress, Start(), Done(m), full);
    FoldOne<Regs>(Compress, Fold(Compress, Start(), Done(m)), full);
  }

  lemma CountIsLength(count0: nat, count1: nat, n: nat)
    requires Counted(count0, count1, n)
    ensures WordBytes(ToWord(count1)) + WordBytes(ToWord(count0)) == LengthBytes(n)
  {
    hide WordBytes, ToWord;
    var q := 8 * n / 0x1_0000_0000_0000_0000;
    assert 8 * n == q * 0x1_0000_0000_0000_0000 + count1 * 0x1_0000_0000 + count0;
    assert 8 * n / 0x1_0000_0000 == q * 0x1_0000_0000 + count1;
    ToWordCut(8 * n, count0);
    ToWordCut(8 * n / 0x1_0000_0000, count1);
  }

  lemma MoreZeros(count0: nat, count1: nat, n: nat, zeros: nat)
    requires Counted(count0, count1, n + 1 + zeros) && count0 / 8 % 64 != 56 && zeros < PadLength(n)
    ensures zeros + 1 < PadLength(n)
  {
    CountPlace(count0, count1, n + 1 + zeros);
  }

  lemma EnoughZeros(count0: nat, count1: nat, n: nat, zeros: nat)
    requires Counted(count0, count1, n + 1 + zeros) && count0 / 8 % 64 == 56 && zeros < PadLength(n)
    ensures zeros + 1 == PadLength(n)
  {
    hide Counted, PadLength;
    CountPlace(count0, count1, n + 1 + zeros);
    SamePlace(n, zeros + 1, PadLength(n));
  }

  lemma SamePlace(n: nat, a: nat, b: nat)
    requires 1 <= a <= 64 && 1 <= b <= 64 && (n + a) % 64 == (n + b) % 64
    ensures a == b
  {
    assert a - b == 64 * ((n + a) / 64 - (n + b) / 64);
  }

  // ======================= streaming =======================

  // Any way of cutting a message into updates gives the digest of the whole.
  method Stream(parts: seq<Bytes>) returns (d: Bytes)
    requires forall i | 0 <= i < |parts| :: |parts[i]| <= 0x1_0000_0000 - 64
    ensures d == Digest(Concat(parts))
  {
    hide *;
    var c := new Context();
    ConcatNext(parts, 0);
    for i := 0 to |parts|
      invariant c.Valid() && c.m == Concat(parts[..i]) && fresh(c) && fresh(c.buffer)
    {
      ConcatNext(parts, i);
      c.Update(parts[i]);
    }
    assert parts[..|parts|] == parts;
    d := c.Final();
  }
}
