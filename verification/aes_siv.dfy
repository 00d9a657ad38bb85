/**
 The steps of SIV mode as src/crypt/aes.c runs them: doubling with a carry that walks back
 through the block, CMAC over a running block, S2V, and CTR with its counter increased in place.
 */
module AesSiv {
  import opened AesBlock
  import opened AesCipher
  import opened AesModes
  import opened AesBuffers
  import opened ByteTools
  import opened Options

  // ======================= doubling =======================

  function TopBit(x: bv8): bv8 { (x >> 7) & 1 }
  function ShiftLeft(x: bv8, carry: bv8): bv8 { (x << 1) | carry }

  lemma Shifts(x: bv8, after: bv8)
    ensures ShiftLeft(x, TopBit(after)) == ShiftIn(x, after)
    ensures ShiftLast(x, after) == if TopBit(after) != 0 then ShiftLeft(x, 0) ^ 0x87 else ShiftLeft(x, 0)
  {
  }

  lemma Shifted(before: Block, after: Block)
    requires forall k | 0 <= k < 15 :: after[k] == ShiftLeft(before[k], TopBit(before[k + 1]))
    requires after[15] == if TopBit(before[0]) != 0 then ShiftLeft(before[15], 0) ^ 0x87 else ShiftLeft(before[15], 0)
    ensures after == Dbl(before)
  {
    hide TopBit, ShiftLeft, ShiftIn, ShiftLast;
    forall k | 0 <= k < 16 ensures after[k] == Dbl(before)[k] {
      if k < 15 { Shifts(before[k], before[k + 1]); } else { Shifts(before[15], before[0]); }
    }
  }

  method DblInPlace(block: array<bv8>)
    requires block.Length == 16
    modifies block
    ensures block[..] == Dbl(old(block[..]))
  {
    hide TopBit, ShiftLeft, Dbl;
    ghost var before: Block := block[..];
    var carry: bv8 := 0;
    var i := 15;
    while i >= 0
      invariant -1 <= i <= 15
      invariant carry == if i == 15 then 0 else TopBit(before[i + 1])
      invariant forall k | 0 <= k <= i :: block[k] == before[k]
      invariant forall k | i < k < 15 :: block[k] == ShiftLeft(before[k], TopBit(before[k + 1]))
      invariant i < 15 ==> block[15] == ShiftLeft(before[15], 0)
    {
      var newCarry := TopBit(block[i]);
      block[i] := ShiftLeft(block[i], carry);
      carry := newCarry;
      i := i - 1;
    }
    if carry != 0 { block[15] := block[15] ^ 0x87; }
    Shifted(before, block[..]);
  }

  // ======================= CMAC =======================

  lemma SubKeysAre(k: Cipher)
    ensures K1(k) == Dbl(k.enc(Zero())) && K2(k) == Dbl(Dbl(k.enc(Zero())))
  {
  }

  method CmacSubKeys(rk: Bytes, nr: nat) returns (k1: array<bv8>, k2: array<bv8>)
    requires Keyed(rk, nr)
    ensures fresh(k1) && fresh(k2) && k1.Length == 16 && k2.Length == 16
    ensures k1[..] == K1(Aes(rk, nr)) && k2[..] == K2(Aes(rk, nr))
  {
    hide *;
    SubKeysAre(Aes(rk, nr));
    AesIs(rk, nr, Zero());
    WholeBlock(Zero(), Encrypt(rk, nr, Zero()));
    var L := NewBlock(Zero());
    CipherBlock(rk, nr, L, 0);
    k1 := NewBlock(L[..]);
    DblInPlace(k1);
    k2 := NewBlock(k1[..]);
    DblInPlace(k2);
  }

  // A block of its own, copied from `b`.
  method NewBlock(b: Block) returns (block: array<bv8>)
    ensures fresh(block) && block.Length == 16 && block[..] == b
  {
    block := new bv8[16](i requires 0 <= i < 16 => b[i]);
  }

  // A buffer of one block.
  lemma WholeBlock(buf: Block, b: Block)
    ensures BlockAt(buf, 0) == buf && Replaced(buf, 0, b) == b
  {
  }

  // XAES_CipherBlock and XAES_ApplyXOR on a buffer that is one block.
  method EncryptBlock(rk: Bytes, nr: nat, block: array<bv8>)
    requires Keyed(rk, nr) && block.Length == 16
    modifies block
    ensures block[..] == Aes(rk, nr).enc(old(block[..]))
  {
    hide *;
    ghost var b: Block := block[..];
    AesIs(rk, nr, b);
    WholeBlock(b, Encrypt(rk, nr, b));
    CipherBlock(rk, nr, block, 0);
  }

  method XorBlock(block: array<bv8>, x: Block)
    requires block.Length == 16
    modifies block
    ensures block[..] == Xor(old(block[..]), x)
  {
    hide *;
    ghost var b: Block := block[..];
    WholeBlock(b, Xor(b, x));
    ApplyXor(block, 0, x);
  }

  method ComputeCmac(rk: Bytes, nr: nat, data: Bytes) returns (tag: Block)
    requires Keyed(rk, nr)
    ensures tag == Cmac(Aes(rk, nr), data)
  {
    hide *;
    ghost var k := Aes(rk, nr);
    var k1, k2 := CmacSubKeys(rk, nr);
    var blocks := (|data| + 15) / 16;
    if blocks == 0 { blocks := 1; }
    var lastLength := |data| - (blocks - 1) * 16;
    var complete := lastLength == 16 && |data| > 0;
    var X := NewBlock(Zero());
    CmacStarts(k, data);
    for i := 0 to blocks - 1
      invariant CmacFrom(k, X[..], data[16 * i..]) == Cmac(k, data)
      invariant k1[..] == K1(k) && k2[..] == K2(k)
    {
      CmacNext(k, X[..], data[16 * i..]);
      assert data[16 * i..][..16] == data[16 * i..16 * i + 16] && data[16 * i..][16..] == data[16 * (i + 1)..];
      XorBlock(X, data[16 * i..16 * i + 16]);
      EncryptBlock(rk, nr, X);
    }
    var rest := data[(blocks - 1) * 16..];
    CmacLast(k, X[..], rest);
    var lastBlock;
    if complete {
      lastBlock := NewBlock(rest);
      XorBlock(lastBlock, k1[..]);
    } else {
      lastBlock := NewBlock(Zero());
      FillPadded(lastBlock, rest);
      XorBlock(lastBlock, k2[..]);
    }
    XorBlock(X, lastBlock[..]);
    EncryptBlock(rk, nr, X);
    tag := X[..];
  }

  // memcpy of the last bytes into a zeroed block, and the 1 bit after them.
  method FillPadded(block: array<bv8>, m: Bytes)
    requires block.Length == 16 && block[..] == Zero() && |m| < 16
    modifies block
    ensures block[..] == Padded(m)
  {
    Copy(block, 0, m);
    block[|m|] := 0x80;
  }

  lemma CmacStarts(k: Cipher, data: Bytes)
    ensures CmacFrom(k, Zero(), data[0..]) == Cmac(k, data)
  {
    hide CmacFrom;
    assert data[0..] == data;
  }

  lemma CmacNext(k: Cipher, x: Block, m: Bytes)
    requires |m| > 16
    ensures CmacFrom(k, x, m) == CmacFrom(k, k.enc(Xor(x, m[..16])), m[16..])
  {
  }

  lemma CmacLast(k: Cipher, x: Block, m: Bytes)
    requires |m| <= 16
    ensures CmacFrom(k, x, m) == k.enc(Xor(x, if |m| == 16 then Xor(m, K1(k)) else Xor(Padded(m), K2(k))))
  {
    hide Xor, Padded;
  }

  // ======================= S2V =======================

  method ComputeS2V(rk: Bytes, nr: nat, nonce: Option<Block>, plain: Bytes) returns (siv: Block)
    requires Keyed(rk, nr)
    ensures siv == S2V(Aes(rk, nr), nonce, plain)
  {
    hide *;
    S2VIs(Aes(rk, nr), nonce, plain);
    var mac := ComputeCmac(rk, nr, Zero());
    var D := NewBlock(mac);
    if nonce.Some? {
      var macNonce := ComputeCmac(rk, nr, nonce.value);
      DblInPlace(D);
      XorBlock(D, macNonce);
    }
    if |plain| >= 16 {
      var T := NewBlock(plain[|plain| - 16..]);
      XorBlock(T, D[..]);
      siv := ComputeCmac(rk, nr, plain[..|plain| - 16] + T[..]);
    } else {
      DblInPlace(D);
      var T := NewBlock(Zero());
      FillPadded(T, plain);
      XorBlock(T, D[..]);
      siv := ComputeCmac(rk, nr, T[..]);
    }
  }

  lemma S2VIs(k: Cipher, nonce: Option<Block>, p: Bytes)
    ensures var zero := Cmac(k, Zero());
      var d := if nonce.Some? then Xor(Dbl(zero), Cmac(k, nonce.value)) else zero;
      S2V(k, nonce, p) ==
        if |p| >= 16 then Cmac(k, p[..|p| - 16] + Xor(p[|p| - 16..], d)) else Cmac(k, Xor(Padded(p), Dbl(d)))
  {
    hide Cmac, Dbl, Xor, Padded;
  }

  // ======================= CTR =======================

  // ++counter[j] from the last byte back, as long as a byte comes to 0.
  method Increase(counter: array<bv8>)
    requires counter.Length == 16
    modifies counter
    ensures counter[..] == Next(old(counter[..]))
  {
    hide Up;
    ghost var before: Block := counter[..];
    var j := 15;
    while j >= 12
      invariant 11 <= j <= 15
      invariant forall k | 0 <= k <= j :: counter[k] == before[k]
      invariant forall k | j < k < 16 :: counter[k] == 0 && Up(before[k]) == 0
    {
      counter[j] := Up(counter[j]);
      if counter[j] != 0 { break; }
      j := j - 1;
    }
    assert counter[..] == Next(before);
  }

  // At most a block of input, under the keystream of the counter.
  method CtrBlock(rk: Bytes, nr: nat, counter: Block, input: Bytes, output: array<bv8>, at: nat)
    requires Keyed(rk, nr) && |input| <= 16 && at + |input| <= output.Length
    modifies output
    ensures output[..] == Spliced(old(output[..]), at, Xor(input, Aes(rk, nr).enc(counter)))
  {
    hide *;
    var keystream := NewBlock(counter);
    EncryptBlock(rk, nr, keystream);
    XorInto(input, keystream[..], output, at);
  }

  method StartCounter(siv: Block) returns (counter: array<bv8>)
    ensures fresh(counter) && counter.Length == 16 && counter[..] == FirstCounter(siv)
  {
    counter := NewBlock(siv);
    counter[8] := counter[8] & 0x7f;
    counter[12] := counter[12] & 0x7f;
  }

  // The source's loop, into a buffer whose bytes from `at` on are overwritten.
  method CtrInto(rk: Bytes, nr: nat, siv: Block, input: Bytes, output: array<bv8>, at: nat)
    requires Keyed(rk, nr) && at + |input| <= output.Length
    modifies output
    ensures output[..] == Spliced(old(output[..]), at, Ctr(Aes(rk, nr), FirstCounter(siv), input))
  {
    hide *;
    ghost var k := Aes(rk, nr);
    ghost var total := Ctr(k, FirstCounter(siv), input);
    var counter := StartCounter(siv);
    var offset := 0;
    ghost var before, done: Bytes := output[..], [];
    SplicedNone(before, at);
    assert input[0..] == input && done + total == total;
    while offset < |input|
      invariant 0 <= offset <= |input| && counter.Length == 16 && fresh(counter)
      invariant |done| == offset && output[..] == Spliced(before, at, done)
      invariant done + Ctr(k, counter[..], input[offset..]) == total
    {
      var length := |input| - offset;
      if length > 16 { length := 16; }
      ghost var rest := input[offset..];
      var piece := input[offset..offset + length];
      assert rest[..length] == piece && rest[length..] == input[offset + length..];
      CtrNext(k, counter[..], rest, done, total);
      ghost var text := Xor(piece, k.enc(counter[..]));
      SplicedTwice(before, at, done, text);
      CtrBlock(rk, nr, counter[..], piece, output, at + offset);
      done, offset := done + text, offset + length;
      Increase(counter);
    }
    CtrEnd(k, counter[..], input[offset..], done, total);
  }

  // A buffer with `x` written over it from `at` on.
  ghost function Spliced(buf: Bytes, at: nat, x: Bytes): (r: Bytes)
    requires at + |x| <= |buf|
    ensures |r| == |buf|
  {
    buf[..at] + x + buf[at + |x|..]
  }

  lemma SplicedNone(buf: Bytes, at: nat)
    requires at <= |buf|
    ensures Spliced(buf, at, []) == buf
  {
  }

  lemma SplicedTwice(buf: Bytes, at: nat, x: Bytes, y: Bytes)
    requires at + |x| + |y| <= |buf|
    ensures Spliced(Spliced(buf, at, x), at + |x|, y) == Spliced(buf, at, x + y)
  {
  }

  method XorInto(input: Bytes, keystream: Block, output: array<bv8>, at: nat)
    requires |input| <= 16 && at + |input| <= output.Length
    modifies output
    ensures output[..] == Spliced(old(output[..]), at, Xor(input, keystream))
  {
    ghost var before := output[..];
    ghost var x := Xor(input, keystream);
    for i := 0 to |input|
      invariant forall j | 0 <= j < output.Length :: output[j] == if at <= j < at + i then x[j - at] else before[j]
    {
      output[at + i] := input[i] ^ keystream[i];
    }
  }

  lemma CtrNext(k: Cipher, counter: Block, input: Bytes, done: Bytes, total: Bytes)
    requires input != [] && done + Ctr(k, counter, input) == total
    ensures var n := if |input| > 16 then 16 else |input|;
      (done + Xor(input[..n], k.enc(counter))) + Ctr(k, Next(counter), input[n..]) == total
  {
    hide Xor, Next;
    if |input| <= 16 {
      assert input[..|input|] == input;
    }
  }

  lemma CtrEnd(k: Cipher, counter: Block, input: Bytes, done: Bytes, total: Bytes)
    requires input == [] && done + Ctr(k, counter, input) == total
    ensures done == total
  {
  }

  // ======================= comparison =======================

  lemma NoDifference(d: bv8, x: bv8, y: bv8)
    ensures d | (x ^ y) == 0 <==> d == 0 && x == y
  {
  }

  method ConstTimeEqual(a: Bytes, b: Bytes) returns (equal: bool)
    requires |a| == |b|
    ensures equal <==> a == b
  {
    var diff: bv8 := 0;
    for i := 0 to |a|
      invariant diff == 0 <==> a[..i] == b[..i]
    {
      NoDifference(diff, a[i], b[i]);
      assert a[..i + 1] == a[..i] + [a[i]] && b[..i + 1] == b[..i] + [b[i]];
      diff := diff | (a[i] ^ b[i]);
    }
    equal := diff == 0;
    assert a[..|a|] == a && b[..|b|] == b;
  }
}
