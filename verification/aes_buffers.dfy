/**
 Buffers as the modes of src/crypt/aes.c use them: filled piece by piece, changed block by block.
 */
module AesBuffers {
  import opened AesBlock
  import opened AesCipher
  import opened AesModes
  import opened ByteTools

  method ApplyXor(buf: array<bv8>, off: nat, x: Block)
    requires off + 16 <= buf.Length
    modifies buf
    ensures buf[..] == Replaced(old(buf[..]), off, Xor(BlockAt(old(buf[..]), off), x))
  {
    ghost var before := buf[..];
    ghost var b := Xor(BlockAt(before, off), x);
    for i := 0 to 16
      invariant forall k | 0 <= k < buf.Length :: buf[k] == if off <= k < off + i then b[k - off] else before[k]
    {
      buf[off + i] := buf[off + i] ^ x[i];
    }
    ReplacedIs(before, buf[..], off, b);
  }

  lemma AesIs(rk: Bytes, nr: nat, b: Block)
    requires Keyed(rk, nr)
    ensures Aes(rk, nr).enc(b) == Encrypt(rk, nr, b) && Aes(rk, nr).dec(b) == Decrypt(rk, nr, b)
  {
    hide Encrypt, Decrypt;
  }

  // A new buffer with four pieces one after the other, and a byte to spare.
  method Assemble(a: Bytes, b: Bytes, c: Bytes, d: Bytes) returns (buf: array<bv8>)
    ensures fresh(buf) && buf.Length == |a| + |b + c + d| + 1
    ensures buf[..|a|] == a && buf[|a|..|a| + |b + c + d|] == b + c + d
  {
    buf := new bv8[|a| + |b| + |c| + |d| + 1];
    Copy(buf, 0, a);
    Copy(buf, |a|, b);
    assert buf[..|a| + |b|] == a + b;
    Copy(buf, |a| + |b|, c);
    assert buf[..|a| + |b| + |c|] == a + b + c;
    Copy(buf, |a| + |b| + |c|, d);
    assert buf[..|a| + |b| + |c| + |d|] == a + b + c + d;
    Parts(buf[..], a, b, c, d);
  }

  lemma Parts(buf: Bytes, a: Bytes, b: Bytes, c: Bytes, d: Bytes)
    requires |buf| >= |a| + |b| + |c| + |d| && buf[..|a| + |b| + |c| + |d|] == a + b + c + d
    ensures buf[..|a|] == a && buf[|a|..|a| + |b + c + d|] == b + c + d
  {
    var whole := buf[..|a| + |b| + |c| + |d|];
    assert whole == a + (b + c + d);
    assert buf[..|a|] == whole[..|a|] && buf[|a|..|a| + |b + c + d|] == whole[|a|..];
  }
}
