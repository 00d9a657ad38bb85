/**
 What the modes of src/crypt/aes.c compute, as functions: CBC with PKCS#7 padding, XBC (CBC with
 a random prefix instead of padding) and SIV (CMAC, S2V and CTR), and why decryption undoes
 encryption in each. The block cipher is used only through its inverse law.
 */
module AesModes {
  import opened AesBlock
  import opened AesCipher
  import opened ByteTools
  import opened Options

  type Bytes = seq<bv8>

  // A block cipher: any permutation of blocks and its inverse.
  datatype Cipher = Cipher(enc: Block -> Block, dec: Block -> Block) {
    ghost predicate Inverse() { forall b: Block :: dec(enc(b)) == b && enc(dec(b)) == b }
  }

  // The one of a context with these round keys.
  function Aes(rk: Bytes, nr: nat): Cipher
    requires Keyed(rk, nr)
  {
    Cipher((b: Block) => Encrypt(rk, nr, b), (b: Block) => Decrypt(rk, nr, b))
  }

  lemma AesInverse(rk: Bytes, nr: nat)
    requires Keyed(rk, nr)
    ensures Aes(rk, nr).Inverse()
  {
    hide Encrypt, Decrypt;
    forall b: Block
      ensures Aes(rk, nr).dec(Aes(rk, nr).enc(b)) == b && Aes(rk, nr).enc(Aes(rk, nr).dec(b)) == b
    {
      DecryptUndoesEncrypt(rk, nr, b);
      EncryptUndoesDecrypt(rk, nr, b);
    }
  }

  function Xor(a: Bytes, b: Bytes): (r: Bytes)
    requires |a| <= |b|
    ensures |r| == |a|
  {
    seq(|a|, i requires 0 <= i < |a| => a[i] ^ b[i])
  }

  lemma XorUndoes(a: Bytes, b: Bytes)
    requires |a| <= |b|
    ensures Xor(Xor(a, b), b) == a
  {
    forall i | 0 <= i < |a| ensures Xor(Xor(a, b), b)[i] == a[i] { XorTwice(a[i], b[i]); }
  }

  // ======================= CBC =======================

  function CbcEnc(k: Cipher, iv: Block, p: Bytes): (c: Bytes)
    requires |p| % 16 == 0
    ensures |c| == |p|
    decreases |p|
  {
    hide Xor;
    if p == [] then []
    else
      var x: Block := Xor(p[..16], iv);
      k.enc(x) + CbcEnc(k, k.enc(x), p[16..])
  }

  function CbcDec(k: Cipher, iv: Block, c: Bytes): (p: Bytes)
    requires |c| % 16 == 0
    ensures |p| == |c|
    decreases |c|
  {
    hide Xor;
    if c == [] then []
    else Xor(k.dec(c[..16]), iv) + CbcDec(k, c[..16], c[16..])
  }

  // The chaining value after the blocks of `c`.
  function Chained(iv: Block, c: Bytes): Block
    requires |c| % 16 == 0
  {
    if c == [] then iv else c[|c| - 16..]
  }

  lemma {:induction false} CbcDecUndoes(k: Cipher, iv: Block, p: Bytes)
    requires k.Inverse() && |p| % 16 == 0
    decreases |p|
    ensures CbcDec(k, iv, CbcEnc(k, iv, p)) == p
  {
    hide Xor;
    if p != [] {
      var x: Block := Xor(p[..16], iv);
      var c: Block := k.enc(x);
      var rest := CbcEnc(k, c, p[16..]);
      assert CbcEnc(k, iv, p) == c + rest && (c + rest)[..16] == c && (c + rest)[16..] == rest;
      XorUndoes(p[..16], iv);
      CbcDecUndoes(k, c, p[16..]);
      assert p == p[..16] + p[16..];
    }
  }

  lemma {:induction false} CbcEncUndoes(k: Cipher, iv: Block, c: Bytes)
    requires k.Inverse() && |c| % 16 == 0
    decreases |c|
    ensures CbcEnc(k, iv, CbcDec(k, iv, c)) == c
  {
    hide Xor;
    if c != [] {
      var x: Block := k.dec(c[..16]);
      var p := Xor(x, iv);
      var rest := CbcDec(k, c[..16], c[16..]);
      assert CbcDec(k, iv, c) == p + rest && (p + rest)[..16] == p && (p + rest)[16..] == rest;
      XorUndoes(x, iv);
      CbcEncUndoes(k, c[..16], c[16..]);
      assert c == c[..16] + c[16..];
    }
  }

  // ----- PKCS#7 padding -----

  function PadLength(n: nat): (m: nat)
    ensures 1 <= m <= 16 && (n + m) % 16 == 0
  {
    (n / 16 + 1) * 16 - n
  }

  function Pad(p: Bytes): (r: Bytes)
    ensures |r| % 16 == 0 && |r| == |p| + PadLength(|p|)
  {
    p + seq(PadLength(|p|), _ => Byte(PadLength(|p|)))
  }

  // The last byte says how many bytes, all like it, to take off.
  function Unpad(d: Bytes): Option<Bytes>
    requires |d| >= 16
  {
    var v := d[|d| - 1];
    var n := Value(v);
    if 1 <= n <= 16 && (forall i | |d| - n <= i < |d| :: d[i] == v) then Some(d[..|d| - n]) else None
  }

  // Unpadding succeeds exactly on padded data, and gives back what was padded.
  lemma UnpadUndoes(p: Bytes, d: Bytes)
    requires |d| >= 16 && |d| % 16 == 0
    ensures Unpad(d) == Some(p) <==> d == Pad(p)
  {
    hide Byte, Value;
    var v := d[|d| - 1];
    var m := PadLength(|p|);
    ByteIs(m, v);
    if d == Pad(p) {
      assert v == Byte(m) && d[..|d| - m] == p;
    }
    if Unpad(d) == Some(p) {
      var n := Value(v);
      assert n == m by { PadLengthOnly(|p|, n); }
      assert d == d[..|d| - n] + d[|d| - n..];
      assert d[|d| - n..] == seq(m, _ => Byte(m));
    }
  }

  lemma PadLengthOnly(n: nat, m: nat)
    requires 1 <= m <= 16 && (n + m) % 16 == 0
    ensures m == PadLength(n)
  {
  }

  // ----- whole messages: the result and the context's IV afterwards -----

  function CbcCrypt(k: Cipher, embed: bool, iv: Block, p: Bytes): (Option<Bytes>, Block)
  {
    if p == [] then (None, iv)
    else
      var c := CbcEnc(k, iv, Pad(p));
      if embed then (Some(iv + c), iv) else (Some(c), Chained(iv, c))
  }

  // The IV and the ciphertext after it, or nothing when the lengths are wrong.
  datatype Message = Message(iv: Block, body: Bytes)

  function Received(embed: bool, iv: Block, x: Bytes): (r: Option<Message>)
    ensures r.Some? ==> |r.value.body| % 16 == 0 && |r.value.body| >= 16
  {
    if embed then
      if |x| <= 16 || (|x| - 16) % 16 != 0 then None else Some(Message(x[..16], x[16..]))
    else
      if |x| < 16 || |x| % 16 != 0 then None else Some(Message(iv, x))
  }

  function CbcDecrypt(k: Cipher, embed: bool, iv: Block, x: Bytes): (Option<Bytes>, Block)
  {
    match Received(embed, iv, x)
    case None => (None, iv)
    case Some(Message(first, c)) =>
      match Unpad(CbcDec(k, first, c))
      case None => (None, iv)
      case Some(p) => (Some(p), if embed then iv else Chained(first, c))
  }

  // One message through two contexts: it comes back, and IVs that agreed agree again. With the
  // IV embedded, the receiver's own IV does not matter.
  lemma CbcRoundTrip(k: Cipher, embed: bool, iv: Block, ivOther: Block, p: Bytes)
    requires k.Inverse() && p != [] && (!embed ==> iv == ivOther)
    ensures CbcCrypt(k, embed, iv, p).0.Some?
    ensures var (out, next) := CbcCrypt(k, embed, iv, p);
      CbcDecrypt(k, embed, ivOther, out.value) == (Some(p), if embed then ivOther else next)
  {
    hide CbcEnc, CbcDec, Unpad, Pad, Byte;
    var c := CbcEnc(k, iv, Pad(p));
    CbcDecUndoes(k, iv, Pad(p));
    UnpadUndoes(p, Pad(p));
    assert (iv + c)[..16] == iv && (iv + c)[16..] == c;
  }

  // What is accepted is exactly what encryption can have sent: the padded text, from the IV in
  // front or from the context's.
  lemma CbcAccepts(k: Cipher, embed: bool, iv: Block, x: Bytes, p: Bytes)
    requires k.Inverse()
    ensures CbcDecrypt(k, embed, iv, x).0 == Some(p) <==>
            if embed then |x| > 16 && x == x[..16] + CbcEnc(k, x[..16], Pad(p))
            else x == CbcEnc(k, iv, Pad(p))
  {
    hide CbcEnc, CbcDec, Unpad, Pad, Byte;
    match Received(embed, iv, x)
    case None =>
    case Some(Message(first, c)) =>
      UnpadUndoes(p, CbcDec(k, first, c));
      CbcEncUndoes(k, first, c);
      CbcDecUndoes(k, first, Pad(p));
      if embed { SplitAt(x, first, CbcEnc(k, first, Pad(p))); }
  }

  lemma SplitAt(x: Bytes, head: Bytes, tail: Bytes)
    requires |x| >= |head| && x[..|head|] == head
    ensures x == head + tail <==> x[|head|..] == tail
  {
    assert x == head + x[|head|..];
    assert (head + tail)[|head|..] == tail;
  }

  // ======================= XBC =======================

  function RandLength(n: nat): (r: nat)
    ensures r < 16 && (4 + r + n) % 16 == 0
  {
    (16 - (4 + n) % 16) % 16
  }

  // Header, random prefix, plaintext.
  function Header(n: nat): (r: Bytes)
    requires n < 0x1_0000_0000
    ensures |r| == 4
  {
    [Byte(n / 0x1000000 % 256), Byte(n / 0x10000 % 256), Byte(n / 0x100 % 256), Byte(n % 256)]
  }

  function ReadHeader(d: Bytes): (n: nat)
    requires |d| >= 4
    ensures n < 0x1_0000_0000
  {
    Value(d[0]) * 0x1000000 + Value(d[1]) * 0x10000 + Value(d[2]) * 0x100 + Value(d[3])
  }

  lemma HeaderReads(n: nat)
    requires n < 0x1_0000_0000
    ensures ReadHeader(Header(n)) == n
  {
    hide Byte, Value;
    ByteIs(n / 0x1000000 % 256, Header(n)[0]);
    ByteIs(n / 0x10000 % 256, Header(n)[1]);
    ByteIs(n / 0x100 % 256, Header(n)[2]);
    ByteIs(n % 256, Header(n)[3]);
    Digits(n);
  }

  lemma Digits(n: nat)
    requires n < 0x1_0000_0000
    ensures n / 0x1000000 % 256 * 0x1000000 + n / 0x10000 % 256 * 0x10000 + n / 0x100 % 256 * 0x100 + n % 256 == n
  {
    assert n / 0x10000 == n / 0x100 / 0x100 && n / 0x1000000 == n / 0x10000 / 0x100;
  }

  function Prefixed(rand: nat -> bv8, p: Bytes): (r: Bytes)
    ensures |r| == 4 + RandLength(|p|) + |p| && |r| % 16 == 0
  {
    Header(RandLength(|p|)) + seq(RandLength(|p|), i requires 0 <= i => rand(i)) + p
  }

  // The sum of the header length and the prefix length is a 32-bit one.
  function Stripped(d: Bytes): Option<Bytes>
    requires |d| >= 16
  {
    var skip := (4 + ReadHeader(d)) % 0x1_0000_0000;
    if skip > |d| then None else Some(d[skip..])
  }

  function XbcCrypt(k: Cipher, embed: bool, iv: Block, rand: nat -> bv8, p: Bytes): (Option<Bytes>, Block)
  {
    if p == [] then (None, iv)
    else
      var c := CbcEnc(k, iv, Prefixed(rand, p));
      if embed then (Some(iv + c), iv) else (Some(c), Chained(iv, c))
  }

  // Unlike CbcDecrypt, this keeps the new IV even when the header is refused.
  function XbcDecrypt(k: Cipher, embed: bool, iv: Block, x: Bytes): (Option<Bytes>, Block)
  {
    match Received(embed, iv, x)
    case None => (None, iv)
    case Some(Message(first, c)) => (Stripped(CbcDec(k, first, c)), if embed then iv else Chained(first, c))
  }

  lemma StrippedUndoes(rand: nat -> bv8, p: Bytes)
    requires |Prefixed(rand, p)| >= 16
    ensures Stripped(Prefixed(rand, p)) == Some(p)
  {
    hide Header, ReadHeader;
    var n := RandLength(|p|);
    var d := Prefixed(rand, p);
    HeaderReads(n);
    assert d[..4] == Header(n);
    HeaderOf(d, Header(n));
    assert d[4 + n..] == p;
  }

  // A plaintext behind a header with the length of what comes between.
  predicate Laid(d: Bytes, p: Bytes)
    requires |d| >= 4
  {
    ReadHeader(d) < 0xFFFF_FFFC && |p| + 4 <= |d| && ReadHeader(d) == |d| - 4 - |p| && d[|d| - |p|..] == p
  }

  // A header with which the sum wraps around, so that the plaintext begins within the header.
  predicate Wraps(d: Bytes, p: Bytes)
    requires |d| >= 4
  {
    ReadHeader(d) >= 0xFFFF_FFFC && p == d[ReadHeader(d) - 0xFFFF_FFFC..]
  }

  lemma StrippedIs(d: Bytes, p: Bytes)
    requires |d| >= 16
    ensures Stripped(d) == Some(p) <==> Laid(d, p) || Wraps(d, p)
  {
    hide ReadHeader;
    var n := ReadHeader(d);
    if n < 0xFFFF_FFFC {
      assert (4 + n) % 0x1_0000_0000 == 4 + n;
      if 4 + n <= |d| && d[4 + n..] == p { assert |d| - |p| == 4 + n; }
    } else {
      assert (4 + n) % 0x1_0000_0000 == n - 0xFFFF_FFFC;
      assert 4 + n == 0x1_0000_0000 + (n - 0xFFFF_FFFC);
    }
  }

  // The input is the encryption of these blocks, from the IV in front or from the context's.
  predicate Carries(k: Cipher, embed: bool, iv: Block, x: Bytes, d: Bytes) {
    |d| >= 16 && |d| % 16 == 0 &&
    if embed then |x| > 16 && x == x[..16] + CbcEnc(k, x[..16], d) else x == CbcEnc(k, iv, d)
  }

  // What is accepted: encryptions of a header, as many bytes as it says and the plaintext; and of
  // blocks whose header wraps around, which no encryption writes.
  lemma XbcAccepts(k: Cipher, embed: bool, iv: Block, x: Bytes, p: Bytes)
    requires k.Inverse()
    ensures XbcDecrypt(k, embed, iv, x).0 == Some(p) <==>
            exists d: Bytes :: Carries(k, embed, iv, x, d) && (Laid(d, p) || Wraps(d, p))
  {
    hide CbcEnc, CbcDec, Stripped, Laid, Wraps;
    var received := Received(embed, iv, x);
    if received.Some? {
      var Message(first, c) := received.value;
      var d := CbcDec(k, first, c);
      CbcEncUndoes(k, first, c);
      StrippedIs(d, p);
      if embed { SplitAt(x, first, c); }
      assert Carries(k, embed, iv, x, d);
    }
    forall d: Bytes | Carries(k, embed, iv, x, d) && (Laid(d, p) || Wraps(d, p))
      ensures XbcDecrypt(k, embed, iv, x).0 == Some(p)
    {
      var first := if embed then x[..16] else iv;
      CbcDecUndoes(k, first, d);
      StrippedIs(d, p);
      if embed { SplitAt(x, first, CbcEnc(k, first, d)); }
      assert received == Some(Message(first, CbcEnc(k, first, d)));
    }
  }

  // A header of 0xFFFFFFFC: the whole of what was encrypted comes out, header and all.
  lemma XbcHeaderWraps(k: Cipher, iv: Block, d: Bytes)
    requires k.Inverse() && |d| >= 16 && |d| % 16 == 0 && d[..4] == [0xFF, 0xFF, 0xFF, 0xFC]
    ensures XbcDecrypt(k, false, iv, CbcEnc(k, iv, d)).0 == Some(d)
  {
    hide CbcEnc, CbcDec, Stripped;
    assert d[..4][0] == d[0] && d[..4][1] == d[1] && d[..4][2] == d[2] && d[..4][3] == d[3];
    assert ReadHeader(d) == 0xFFFF_FFFC;
    assert Wraps(d, d) && Carries(k, false, iv, CbcEnc(k, iv, d), d);
    XbcAccepts(k, false, iv, CbcEnc(k, iv, d), d);
  }

  lemma HeaderOf(d: Bytes, h: Bytes)
    requires |d| >= 4 && |h| == 4 && d[..4] == h
    ensures ReadHeader(d) == ReadHeader(h)
  {
    assert d[0] == d[..4][0] && d[1] == d[..4][1] && d[2] == d[..4][2] && d[3] == d[..4][3];
  }

  lemma XbcRoundTrip(k: Cipher, embed: bool, iv: Block, ivOther: Block, rand: nat -> bv8, p: Bytes)
    requires k.Inverse() && p != [] && (!embed ==> iv == ivOther)
    ensures XbcCrypt(k, embed, iv, rand, p).0.Some?
    ensures var (out, next) := XbcCrypt(k, embed, iv, rand, p);
      XbcDecrypt(k, embed, ivOther, out.value) == (Some(p), if embed then ivOther else next)
  {
    hide CbcEnc, CbcDec, Stripped;
    var d := Prefixed(rand, p);
    var c := CbcEnc(k, iv, d);
    hide Prefixed;
    CbcDecUndoes(k, iv, d);
    StrippedUndoes(rand, p);
    assert (iv + c)[..16] == iv && (iv + c)[16..] == c;
  }

  // ----- a conversation -----

  datatype Mode = Cbc | Xbc

  // Message n draws its random bytes from rand(n).
  function Crypt(mode: Mode, k: Cipher, embed: bool, iv: Block, rand: nat -> bv8, p: Bytes): (Option<Bytes>, Block)
  {
    if mode == Cbc then CbcCrypt(k, embed, iv, p) else XbcCrypt(k, embed, iv, rand, p)
  }

  function Decrypts(mode: Mode, k: Cipher, embed: bool, iv: Block, x: Bytes): (Option<Bytes>, Block)
  {
    if mode == Cbc then CbcDecrypt(k, embed, iv, x) else XbcDecrypt(k, embed, iv, x)
  }

  // Every message in turn, with the IV left by the one before; nothing once one fails.
  function CryptAll(mode: Mode, k: Cipher, embed: bool, iv: Block, rand: nat -> nat -> bv8, ps: seq<Bytes>): (r: (Option<seq<Bytes>>, Block))
    decreases |ps|
  {
    if ps == [] then (Some([]), iv)
    else
      var (out, next) := Crypt(mode, k, embed, iv, rand(|ps|), ps[0]);
      if out.None? then (None, next)
      else
        var (outs, last) := CryptAll(mode, k, embed, next, rand, ps[1..]);
        (if outs.None? then None else Some([out.value] + outs.value), last)
  }

  function DecryptAll(mode: Mode, k: Cipher, embed: bool, iv: Block, xs: seq<Bytes>): (r: (Option<seq<Bytes>>, Block))
    decreases |xs|
  {
    if xs == [] then (Some([]), iv)
    else
      var (p, next) := Decrypts(mode, k, embed, iv, xs[0]);
      if p.None? then (None, next)
      else
        var (ps, last) := DecryptAll(mode, k, embed, next, xs[1..]);
        (if ps.None? then None else Some([p.value] + ps.value), last)
  }

  // A second context with the same key and starting IV decrypts, in order, every sequence of
  // non-empty messages, and the two IVs agree at the end (so after each message).
  lemma {:induction false} ConversationRoundTrip(mode: Mode, k: Cipher, embed: bool, iv: Block, rand: nat -> nat -> bv8, ps: seq<Bytes>)
    requires k.Inverse() && forall i | 0 <= i < |ps| :: ps[i] != []
    ensures CryptAll(mode, k, embed, iv, rand, ps).0.Some?
    ensures var (outs, last) := CryptAll(mode, k, embed, iv, rand, ps);
      DecryptAll(mode, k, embed, iv, outs.value) == (Some(ps), last)
    decreases |ps|
  {
    hide Crypt, Decrypts;
    if ps != [] {
      var (out, next) := Crypt(mode, k, embed, iv, rand(|ps|), ps[0]);
      OneRoundTrip(mode, k, embed, iv, rand(|ps|), ps[0]);
      ConversationRoundTrip(mode, k, embed, next, rand, ps[1..]);
      var outs := CryptAll(mode, k, embed, next, rand, ps[1..]).0.value;
      assert ([out.value] + outs)[0] == out.value && ([out.value] + outs)[1..] == outs;
      assert ps == [ps[0]] + ps[1..];
    }
  }

  lemma OneRoundTrip(mode: Mode, k: Cipher, embed: bool, iv: Block, rand: nat -> bv8, p: Bytes)
    requires k.Inverse() && p != []
    ensures var (out, next) := Crypt(mode, k, embed, iv, rand, p);
      out.Some? && Decrypts(mode, k, embed, iv, out.value) == (Some(p), next)
  {
    hide CbcCrypt, CbcDecrypt, XbcCrypt, XbcDecrypt;
    if mode == Cbc {
      CbcRoundTrip(k, embed, iv, iv, p);
      IvKept(k, embed, iv, rand, p);
    } else {
      XbcRoundTrip(k, embed, iv, iv, rand, p);
      IvKept(k, embed, iv, rand, p);
    }
  }

  lemma IvKept(k: Cipher, embed: bool, iv: Block, rand: nat -> bv8, p: Bytes)
    ensures embed ==> CbcCrypt(k, embed, iv, p).1 == iv && XbcCrypt(k, embed, iv, rand, p).1 == iv
  {
  }

  // With the IV embedded, any receiver with the key reads each message alone, whatever its own IV.
  lemma EmbeddedRoundTrip(mode: Mode, k: Cipher, iv: Block, ivOther: Block, rand: nat -> bv8, p: Bytes)
    requires k.Inverse() && p != []
    ensures var (out, next) := Crypt(mode, k, true, iv, rand, p);
      out.Some? && next == iv && Decrypts(mode, k, true, ivOther, out.value) == (Some(p), ivOther)
  {
    hide CbcCrypt, CbcDecrypt, XbcCrypt, XbcDecrypt;
    IvKept(k, true, iv, rand, p);
    if mode == Cbc { CbcRoundTrip(k, true, iv, ivOther, p); } else { XbcRoundTrip(k, true, iv, ivOther, rand, p); }
  }

  // ======================= SIV =======================

  // A byte one bit to the left, with the top bit of the byte after it.
  function ShiftIn(b: bv8, after: bv8): bv8 { (b << 1) | (after >> 7) }

  // The last byte: 0x87 goes in when a bit falls out of the first.
  function ShiftLast(b: bv8, first: bv8): bv8 {
    if first >> 7 == 1 then (b << 1) ^ 0x87 else b << 1
  }

  // Doubling of section 2.3 of RFC 5297.
  function Dbl(b: Block): Block {
    seq(16, i requires 0 <= i < 16 => if i < 15 then ShiftIn(b[i], b[i + 1]) else ShiftLast(b[15], b[0]))
  }

  function Zero(): Block { seq(16, _ => 0) }

  function K1(k: Cipher): Block { Dbl(k.enc(Zero())) }
  function K2(k: Cipher): Block { Dbl(K1(k)) }

  // 10...0 up to a block.
  function Padded(m: Bytes): Block
    requires |m| < 16
  {
    m + [0x80] + seq(15 - |m|, _ => 0)
  }

  // The masked last block of section 2.4 of RFC 4493.
  function LastBlock(k: Cipher, m: Bytes): Block
    requires |m| <= 16
  {
    if |m| == 16 then Xor(m, K1(k)) else Xor(Padded(m), K2(k))
  }

  function CmacFrom(k: Cipher, x: Block, m: Bytes): Block
    decreases |m|
  {
    hide Xor, LastBlock;
    if |m| <= 16 then k.enc(Xor(x, LastBlock(k, m)))
    else CmacFrom(k, k.enc(Xor(x, m[..16])), m[16..])
  }

  function Cmac(k: Cipher, m: Bytes): Block { CmacFrom(k, Zero(), m) }

  // S2V with no associated data, or with the nonce as the only one.
  function S2V(k: Cipher, nonce: Option<Block>, p: Bytes): Block
  {
    var zero := Cmac(k, Zero());
    var d := if nonce.Some? then Xor(Dbl(zero), Cmac(k, nonce.value)) else zero;
    if |p| >= 16 then Cmac(k, p[..|p| - 16] + Xor(p[|p| - 16..], d))
    else Cmac(k, Xor(Padded(p), Dbl(d)))
  }

  function FirstCounter(siv: Block): Block {
    siv[8 := siv[8] & 0x7f][12 := siv[12] & 0x7f]
  }

  // Four bytes counting, most significant first: a byte that comes to 0 carries.
  function NextFour(x: bv8, y: bv8, z: bv8, w: bv8): (r: Bytes)
    ensures |r| == 4
  {
    if Up(w) != 0 then [x, y, z, Up(w)]
    else if Up(z) != 0 then [x, y, Up(z), 0]
    else if Up(y) != 0 then [x, Up(y), 0, 0]
    else [Up(x), 0, 0, 0]
  }

  function Next(c: Block): Block { c[..12] + NextFour(c[12], c[13], c[14], c[15]) }

  lemma ReadFour(x: bv8, y: bv8, z: bv8, w: bv8)
    ensures ReadHeader([x, y, z, w]) == Value(x) * 0x1000000 + Value(y) * 0x10000 + Value(z) * 0x100 + Value(w)
  {
    hide Value;
  }

  // That is, their number goes up by one, modulo 2^32.
  lemma NextFourCounts(x: bv8, y: bv8, z: bv8, w: bv8)
    ensures ReadHeader(NextFour(x, y, z, w)) == (ReadHeader([x, y, z, w]) + 1) % 0x1_0000_0000
  {
    hide Up, Value, ReadHeader;
    ReadFour(x, y, z, w);
    PlusOne(w);
    PlusOne(0);
    if Up(w) != 0 {
      ReadFour(x, y, z, Up(w));
    } else {
      PlusOne(z);
      if Up(z) != 0 {
        ReadFour(x, y, Up(z), 0);
      } else {
        PlusOne(y);
        PlusOne(x);
        ReadFour(x, Up(y), 0, 0);
        ReadFour(Up(x), 0, 0, 0);
      }
    }
  }

  lemma NextCounts(c: Block)
    ensures ReadHeader(Next(c)[12..]) == (ReadHeader(c[12..]) + 1) % 0x1_0000_0000
    ensures Next(c)[..12] == c[..12]
  {
    hide NextFour, ReadHeader;
    NextFourCounts(c[12], c[13], c[14], c[15]);
    assert c[12..] == [c[12], c[13], c[14], c[15]];
    assert Next(c)[12..] == NextFour(c[12], c[13], c[14], c[15]);
  }

  function Ctr(k: Cipher, counter: Block, input: Bytes): (r: Bytes)
    ensures |r| == |input|
    decreases |input|
  {
    hide Xor, Next;
    if |input| <= 16 then Xor(input, k.enc(counter))
    else Xor(input[..16], k.enc(counter)) + Ctr(k, Next(counter), input[16..])
  }

  lemma {:induction false} CtrUndoes(k: Cipher, counter: Block, input: Bytes)
    decreases |input|
    ensures Ctr(k, counter, Ctr(k, counter, input)) == input
  {
    hide Xor, Next;
    var pad := k.enc(counter);
    if |input| <= 16 {
      XorUndoes(input, pad);
    } else {
      var first := Xor(input[..16], pad);
      var rest := Ctr(k, Next(counter), input[16..]);
      assert (first + rest)[..16] == first && (first + rest)[16..] == rest;
      XorUndoes(input[..16], pad);
      CtrUndoes(k, Next(counter), input[16..]);
      assert input == input[..16] + input[16..];
    }
  }

  // A context of the two SIV modes: the MAC key, the CTR key, and the nonce of nonce mode.
  datatype SivKey = SivKey(mac: Cipher, ctr: Cipher, nonce: Option<Block>)

  function SivCrypt(s: SivKey, p: Bytes): Bytes
  {
    var siv := S2V(s.mac, s.nonce, p);
    siv + Ctr(s.ctr, FirstCounter(siv), p)
  }

  function SivDecrypt(s: SivKey, x: Bytes): Option<Bytes>
  {
    if |x| <= 16 then None
    else
      var p := Ctr(s.ctr, FirstCounter(x[..16]), x[16..]);
      if S2V(s.mac, s.nonce, p) == x[..16] then Some(p) else None
  }

  // Decryption returns p exactly when p is non-empty and encrypting p gives the input: nothing
  // that was not encrypted under this context is ever accepted.
  lemma SivExactInverse(s: SivKey, x: Bytes, p: Bytes)
    ensures SivDecrypt(s, x) == Some(p) <==> p != [] && SivCrypt(s, p) == x
  {
    hide S2V, Ctr, FirstCounter;
    var siv := S2V(s.mac, s.nonce, p);
    var out := SivCrypt(s, p);
    assert out[..16] == siv && out[16..] == Ctr(s.ctr, FirstCounter(siv), p);
    CtrUndoes(s.ctr, FirstCounter(siv), p);
    if |x| > 16 {
      assert x == x[..16] + x[16..];
      CtrUndoes(s.ctr, FirstCounter(x[..16]), x[16..]);
    }
  }

  // So encryption loses nothing: under one context, different messages have different outputs.
  lemma SivInjective(s: SivKey, p: Bytes, q: Bytes)
    requires p != [] && SivCrypt(s, p) == SivCrypt(s, q)
    ensures p == q
  {
    hide SivCrypt, SivDecrypt, Ctr;
    SivLength(s, p);
    SivLength(s, q);
    SivExactInverse(s, SivCrypt(s, p), p);
    SivExactInverse(s, SivCrypt(s, q), q);
  }

  lemma SivLength(s: SivKey, p: Bytes)
    ensures |SivCrypt(s, p)| == |p| + 16
  {
  }
}
