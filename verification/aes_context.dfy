/**
 An initialised context of src/crypt/aes.c and its operations as they run: output buffers are
 filled and encrypted in place, and the context's IV moves on from message to message. Each
 operation computes the function of AesModes of the same name.
 */
module AesContext {
  import opened AesBlock
  import opened AesCipher
  import opened AesModes
  import opened AesBuffers
  import opened AesSiv
  import opened ByteTools
  import opened Options

  // ======================= CBC chains in place =======================

  // `text`, between `head` and `tail`, of which the first `seen` bytes are done and `last` is the
  // chaining value for the rest.
  ghost predicate Underway(head: Bytes, text: Bytes, tail: Bytes, buf: Bytes, seen: nat) {
    && |text| % 16 == 0 && seen % 16 == 0 && seen <= |text|
    && |buf| == |head| + |text| + |tail|
    && buf[..|head|] == head
    && buf[|head| + seen..] == text[seen..] + tail
  }

  ghost predicate Encrypting(k: Cipher, iv: Block, head: Bytes, text: Bytes, tail: Bytes, buf: Bytes, seen: nat, last: Block) {
    && Underway(head, text, tail, buf, seen)
    && buf[|head|..|head| + seen] + CbcEnc(k, last, text[seen..]) == CbcEnc(k, iv, text)
    && last == Chained(iv, buf[|head|..|head| + seen])
  }

  ghost predicate Decrypting(k: Cipher, iv: Block, head: Bytes, text: Bytes, tail: Bytes, buf: Bytes, seen: nat, last: Block) {
    && Underway(head, text, tail, buf, seen)
    && buf[|head|..|head| + seen] + CbcDec(k, last, text[seen..]) == CbcDec(k, iv, text)
    && last == Chained(iv, text[..seen])
  }

  lemma Starts(k: Cipher, iv: Block, head: Bytes, text: Bytes, tail: Bytes, buf: Bytes)
    requires buf == head + text + tail && |text| % 16 == 0
    ensures Encrypting(k, iv, head, text, tail, buf, 0, iv) && Decrypting(k, iv, head, text, tail, buf, 0, iv)
  {
    hide CbcEnc, CbcDec;
    assert text[0..] == text && buf[|head|..|head|] == [];
  }

  lemma Ends(k: Cipher, iv: Block, head: Bytes, text: Bytes, tail: Bytes, buf: Bytes, last: Block)
    ensures Encrypting(k, iv, head, text, tail, buf, |text|, last) ==>
            buf == head + CbcEnc(k, iv, text) + tail && last == Chained(iv, CbcEnc(k, iv, text))
    ensures Decrypting(k, iv, head, text, tail, buf, |text|, last) ==>
            buf == head + CbcDec(k, iv, text) + tail && last == Chained(iv, text)
  {
    if Underway(head, text, tail, buf, |text|) {
      var done := buf[|head|..|head| + |text|];
      assert buf == head + done + tail;
      assert text[|text|..] == [] && text[..|text|] == text;
      assert done + [] == done;
    }
  }

  // The next block of the text is changed to `b`.
  lemma Moves(head: Bytes, text: Bytes, tail: Bytes, buf: Bytes, seen: nat, b: Block)
    requires Underway(head, text, tail, buf, seen) && seen < |text|
    ensures |text[seen..]| >= 16
    ensures BlockAt(buf, |head| + seen) == text[seen..][..16] && text[..seen + 16] == text[..seen] + text[seen..][..16]
    ensures var after := Replaced(buf, |head| + seen, b);
      Underway(head, text, tail, after, seen + 16) && text[seen + 16..] == text[seen..][16..] &&
      after[|head|..|head| + (seen + 16)] == buf[|head|..|head| + seen] + b
  {
    var after := Replaced(buf, |head| + seen, b);
    assert buf[|head| + seen + 16..] == buf[|head| + seen..][16..];
    assert after[|head| + seen + 16..] == buf[|head| + seen + 16..];
    assert BlockAt(buf, |head| + seen) == buf[|head| + seen..][..16];
  }

  lemma Room(head: Bytes, text: Bytes, tail: Bytes, buf: Bytes, seen: nat)
    requires Underway(head, text, tail, buf, seen) && seen < |text|
    ensures seen + 16 <= |text| && |head| + seen + 16 <= |buf|
  {
  }

  lemma Encrypts(k: Cipher, iv: Block, head: Bytes, text: Bytes, tail: Bytes, buf: Bytes, seen: nat, last: Block)
    requires Encrypting(k, iv, head, text, tail, buf, seen, last) && seen < |text|
    ensures |head| + seen + 16 <= |buf| && seen + 16 <= |text|
    ensures var c: Block := k.enc(Xor(BlockAt(buf, |head| + seen), last));
      Encrypting(k, iv, head, text, tail, Replaced(buf, |head| + seen, c), seen + 16, c)
  {
    hide Xor, Underway, Replaced, BlockAt;
    Room(head, text, tail, buf, seen);
    var c: Block := k.enc(Xor(text[seen..seen + 16], last));
    Moves(head, text, tail, buf, seen, c);
    assert text[seen..][..16] == text[seen..seen + 16];
    var done := buf[|head|..|head| + seen];
    assert (done + c) + CbcEnc(k, c, text[seen..][16..]) == done + (c + CbcEnc(k, c, text[seen..][16..]));
  }

  lemma Decrypts(k: Cipher, iv: Block, head: Bytes, text: Bytes, tail: Bytes, buf: Bytes, seen: nat, last: Block)
    requires Decrypting(k, iv, head, text, tail, buf, seen, last) && seen < |text|
    ensures |head| + seen + 16 <= |buf| && seen + 16 <= |text|
    ensures var c: Block := BlockAt(buf, |head| + seen);
      Decrypting(k, iv, head, text, tail, Replaced(buf, |head| + seen, Xor(k.dec(c), last)), seen + 16, c)
  {
    hide Xor, Underway, Replaced, BlockAt;
    Room(head, text, tail, buf, seen);
    var c: Block := text[seen..seen + 16];
    var p: Block := Xor(k.dec(c), last);
    Moves(head, text, tail, buf, seen, p);
    assert text[seen..][..16] == c;
    var done := buf[|head|..|head| + seen];
    assert (done + p) + CbcDec(k, c, text[seen..][16..]) == done + (p + CbcDec(k, c, text[seen..][16..]));
  }

  method EncryptNext(rk: Bytes, nr: nat, buf: array<bv8>, off: nat, iv: Block) returns (last: Block)
    requires Keyed(rk, nr) && off + 16 <= buf.Length
    modifies buf
    ensures last == Aes(rk, nr).enc(Xor(BlockAt(old(buf[..]), off), iv))
    ensures buf[..] == Replaced(old(buf[..]), off, last)
  {
    hide *;
    ghost var before := buf[..];
    ghost var x: Block := Xor(BlockAt(before, off), iv);
    AesIs(rk, nr, x);
    ReplacedTwice(before, off, x, Encrypt(rk, nr, x));
    ApplyXor(buf, off, iv);
    CipherBlock(rk, nr, buf, off);
    ReplacedTwice(before, off, Encrypt(rk, nr, x), x);
    IsBlockAt(buf[..], off);
    last := buf[off..off + 16];
  }

  lemma IsBlockAt(buf: Bytes, off: nat)
    requires off + 16 <= |buf|
    ensures buf[off..off + 16] == BlockAt(buf, off)
  {
  }

  method DecryptNext(rk: Bytes, nr: nat, buf: array<bv8>, off: nat, iv: Block) returns (last: Block)
    requires Keyed(rk, nr) && off + 16 <= buf.Length
    modifies buf
    ensures last == BlockAt(old(buf[..]), off)
    ensures buf[..] == Replaced(old(buf[..]), off, Xor(Aes(rk, nr).dec(last), iv))
  {
    hide *;
    ghost var before := buf[..];
    last := buf[off..off + 16];
    IsBlockAt(buf[..], off);
    AesIs(rk, nr, last);
    ghost var x := Decrypt(rk, nr, last);
    ReplacedTwice(before, off, x, Xor(x, iv));
    EcbDecrypt(rk, nr, buf, off);
    ApplyXor(buf, off, iv);
  }

  method EncryptChain(rk: Bytes, nr: nat, buf: array<bv8>, from: nat, n: nat, iv: Block) returns (last: Block)
    requires Keyed(rk, nr) && from + n <= buf.Length && n % 16 == 0
    modifies buf
    ensures var c := CbcEnc(Aes(rk, nr), iv, old(buf[from..from + n]));
      buf[..] == old(buf[..from]) + c + old(buf[from + n..]) && last == Chained(iv, c)
  {
    hide *;
    ghost var k := Aes(rk, nr);
    ghost var head, text, tail := buf[..from], buf[from..from + n], buf[from + n..];
    var left, off := n, from;
    last := iv;
    assert buf[..] == head + text + tail;
    Starts(k, iv, head, text, tail, buf[..]);
    while left > 0
      invariant 0 <= left && off + left == from + n
      invariant Encrypting(k, iv, head, text, tail, buf[..], off - from, last)
    {
      Encrypts(k, iv, head, text, tail, buf[..], off - from, last);
      last := EncryptNext(rk, nr, buf, off, last);
      left, off := left - 16, off + 16;
    }
    Ends(k, iv, head, text, tail, buf[..], last);
  }

  method DecryptChain(rk: Bytes, nr: nat, buf: array<bv8>, from: nat, n: nat, iv: Block) returns (last: Block)
    requires Keyed(rk, nr) && from + n <= buf.Length && n % 16 == 0
    modifies buf
    ensures buf[..] == old(buf[..from]) + CbcDec(Aes(rk, nr), iv, old(buf[from..from + n])) + old(buf[from + n..])
    ensures last == Chained(iv, old(buf[from..from + n]))
  {
    hide *;
    ghost var k := Aes(rk, nr);
    ghost var head, text, tail := buf[..from], buf[from..from + n], buf[from + n..];
    var left, off := n, from;
    last := iv;
    assert buf[..] == head + text + tail;
    Starts(k, iv, head, text, tail, buf[..]);
    while left > 0
      invariant 0 <= left && off + left == from + n
      invariant Decrypting(k, iv, head, text, tail, buf[..], off - from, last)
    {
      Decrypts(k, iv, head, text, tail, buf[..], off - from, last);
      last := DecryptNext(rk, nr, buf, off, last);
      left, off := left - 16, off + 16;
    }
    Ends(k, iv, head, text, tail, buf[..], last);
  }

  // The prefix, then the encryption of the three pieces, then a 0.
  method EncryptBody(rk: Bytes, nr: nat, iv: Block, prefix: Bytes, a: Bytes, b: Bytes, c: Bytes)
    returns (out: array<bv8>, last: Block)
    requires Keyed(rk, nr) && |a + b + c| % 16 == 0
    ensures fresh(out) && out.Length == |prefix| + |a + b + c| + 1
    ensures out[..out.Length - 1] == prefix + CbcEnc(Aes(rk, nr), iv, a + b + c) && out[out.Length - 1] == 0
    ensures last == Chained(iv, CbcEnc(Aes(rk, nr), iv, a + b + c))
  {
    hide *;
    out := Assemble(prefix, a, b, c);
    last := EncryptChain(rk, nr, out, |prefix|, |a + b + c|, iv);
    out[out.Length - 1] := 0;
  }

  // A received message decrypted into a buffer of its own, with a byte to spare.
  method DecryptBody(rk: Bytes, nr: nat, m: Message) returns (out: array<bv8>, last: Block)
    requires Keyed(rk, nr) && |m.body| % 16 == 0
    ensures fresh(out) && out.Length == |m.body| + 1
    ensures out[..|m.body|] == CbcDec(Aes(rk, nr), m.iv, m.body) && last == Chained(m.iv, m.body)
  {
    hide *;
    out := Assemble([], m.body, [], []);
    WithEmpty(m.body);
    last := DecryptChain(rk, nr, out, 0, |m.body|, m.iv);
  }

  // The length of the padding at the end of the first n bytes; 0 when they have none.
  method PaddingOf(out: array<bv8>, n: nat) returns (length: nat)
    requires 16 <= n <= out.Length
    ensures length <= n && Unpad(out[..n]) == if length == 0 then None else Some(out[..n - length])
  {
    hide Value;
    var padding := out[n - 1];
    length := Value(padding);
    assert out[..n][n - 1] == padding;
    if length == 0 || length > 16 { return 0; }
    for i := 0 to length
      invariant forall j | n - i <= j < n :: out[..n][j] == padding
    {
      if out[n - 1 - i] != padding {
        assert out[..n][n - 1 - i] != padding;
        return 0;
      }
    }
    assert out[..n][..n - length] == out[..n - length];
  }

  // ======================= a context =======================

  datatype ModeName = CBC | XBC | SIV | SIV_NONCE

  function Sent(mode: ModeName, s: SivKey, k: Cipher, embed: bool, iv: Block, rand: nat -> bv8, p: Bytes): (Option<Bytes>, Block) {
    match mode
    case CBC => AesModes.CbcCrypt(k, embed, iv, p)
    case XBC => AesModes.XbcCrypt(k, embed, iv, rand, p)
    case _ => (Some(AesModes.SivCrypt(s, p)), iv)
  }

  function Opened(mode: ModeName, s: SivKey, k: Cipher, embed: bool, iv: Block, x: Bytes): (Option<Bytes>, Block) {
    match mode
    case CBC => AesModes.CbcDecrypt(k, embed, iv, x)
    case XBC => AesModes.XbcDecrypt(k, embed, iv, x)
    case _ => (AesModes.SivDecrypt(s, x), iv)
  }

  // In every mode, what a context sends another with the same keys and IV opens, and their IVs
  // agree again: with AES for the cipher, whatever the round keys.
  lemma OpenedIsSent(mode: ModeName, s: SivKey, rk: Bytes, nr: nat, embed: bool, iv: Block, rand: nat -> bv8, p: Bytes)
    requires Keyed(rk, nr) && p != []
    ensures var (out, next) := Sent(mode, s, Aes(rk, nr), embed, iv, rand, p);
      out.Some? && Opened(mode, s, Aes(rk, nr), embed, iv, out.value) == (Some(p), next)
  {
    hide Aes, AesModes.CbcCrypt, AesModes.CbcDecrypt, AesModes.XbcCrypt, AesModes.XbcDecrypt, AesModes.SivCrypt, AesModes.SivDecrypt;
    AesInverse(rk, nr);
    IvKept(Aes(rk, nr), embed, iv, rand, p);
    match mode
    case CBC => CbcRoundTrip(Aes(rk, nr), embed, iv, iv, p);
    case XBC => XbcRoundTrip(Aes(rk, nr), embed, iv, iv, rand, p);
    case _ => SivExactInverse(s, AesModes.SivCrypt(s, p), p);
  }

  class Context {
    var mode: ModeName
    var rk: Bytes
    var cmacRk: Bytes
    var nr: nat
    var iv: Block
    var containIV: bool

    ghost predicate Valid()
      reads this
    {
      Keyed(rk, nr) && Keyed(cmacRk, nr)
    }

    constructor (mode: ModeName, rk: Bytes, cmacRk: Bytes, nr: nat, iv: Block, containIV: bool)
      requires Keyed(rk, nr) && Keyed(cmacRk, nr)
      ensures Valid() && this.mode == mode && this.rk == rk && this.cmacRk == cmacRk && this.nr == nr
      ensures this.iv == iv && this.containIV == containIV
    {
      this.mode, this.rk, this.cmacRk, this.nr, this.iv, this.containIV := mode, rk, cmacRk, nr, iv, containIV;
    }

    method CbcCrypt(input: Bytes) returns (output: array?<bv8>, length: nat)
      requires Valid()
      modifies this`iv
      ensures output != null ==> fresh(output)
      ensures var (result, next) := AesModes.CbcCrypt(Aes(rk, nr), containIV, old(iv), input);
        Returned(output, length, result) && iv == next
    {
      hide Aes, CbcEnc, Chained, Byte, AesModes.CbcCrypt, Keyed;
      if |input| == 0 {
        CbcCryptEmpty(Aes(rk, nr), containIV, iv);
        return null, 0;
      }
      var newLength := (|input| / 16 + 1) * 16;
      var padding := newLength - |input|;
      var prefix := if containIV then iv else [];
      length := |prefix| + newLength;
      CbcCryptIs(Aes(rk, nr), containIV, iv, input);
      var last;
      output, last := EncryptBody(rk, nr, iv, prefix, input, seq(padding, _ => Byte(padding)), []);
      if !containIV { iv := last; }
    }

    method CbcDecrypt(input: Bytes) returns (output: array?<bv8>, length: nat)
      requires Valid()
      modifies this`iv
      ensures output != null ==> fresh(output)
      ensures var (result, next) := AesModes.CbcDecrypt(Aes(rk, nr), containIV, old(iv), input);
        Returned(output, length, result) && iv == next
    {
      hide Aes, CbcDec, Chained, Value, AesModes.CbcDecrypt, Keyed, Received, Unpad;
      output, length := null, 0;
      CbcDecryptIs(Aes(rk, nr), containIV, iv, input);
      var received := Receive(input);
      if received == None { return; }
      var n := |received.value.body|;
      var out, last := DecryptBody(rk, nr, received.value);
      var padding := PaddingOf(out, n);
      if padding == 0 { return; }
      if !containIV { iv := last; }
      length := n - padding;
      out[length] := 0;
      output := out;
    }

    // The length checks and the choice of IV that both decryptions begin with.
    method Receive(input: Bytes) returns (r: Option<Message>)
      ensures r == Received(containIV, iv, input)
    {
      if |input| == 0 { return None; }
      if containIV {
        if |input| <= 16 { return None; }
        if (|input| - 16) % 16 != 0 { return None; }
        r := Some(Message(input[..16], input[16..]));
      } else {
        if |input| < 16 { return None; }
        if |input| % 16 != 0 { return None; }
        r := Some(Message(iv, input));
      }
    }

    method XbcCrypt(rand: nat -> bv8, input: Bytes) returns (output: array?<bv8>, length: nat)
      requires Valid()
      modifies this`iv
      ensures output != null ==> fresh(output)
      ensures var (result, next) := AesModes.XbcCrypt(Aes(rk, nr), containIV, old(iv), rand, input);
        Returned(output, length, result) && iv == next
    {
      hide Aes, CbcEnc, Chained, Byte, AesModes.XbcCrypt, Keyed, Header;
      if |input| == 0 {
        XbcCryptEmpty(Aes(rk, nr), containIV, iv, rand);
        return null, 0;
      }
      var known := (4 + |input|) % 16;
      var randLength := (16 - known) % 16;
      var prefix := if containIV then iv else [];
      length := |prefix| + (4 + randLength + |input|);
      XbcCryptIs(Aes(rk, nr), containIV, iv, rand, input);
      var random := seq(randLength, i requires 0 <= i => rand(i));
      var last;
      output, last := EncryptBody(rk, nr, iv, prefix, Header(randLength), random, input);
      if !containIV { iv := last; }
    }

    method XbcDecrypt(input: Bytes) returns (output: array?<bv8>, length: nat)
      requires Valid()
      modifies this`iv
      ensures output != null ==> fresh(output)
      ensures var (result, next) := AesModes.XbcDecrypt(Aes(rk, nr), containIV, old(iv), input);
        Returned(output, length, result) && iv == next
    {
      hide Aes, CbcDec, Chained, Value, AesModes.XbcDecrypt, Keyed, Received, ReadHeader;
      output, length := null, 0;
      XbcDecryptIs(Aes(rk, nr), containIV, iv, input);
      var received := Receive(input);
      if received == None { return; }
      var n := |received.value.body|;
      var decrypted, last := DecryptBody(rk, nr, received.value);
      if !containIV { iv := last; }
      var skip := (4 + ReadHeader(decrypted[..n])) % 0x1_0000_0000;
      if skip > n { return; }
      length := n - skip;
      var out := Assemble([], decrypted[skip..n], [], []);
      WithEmpty(decrypted[skip..n]);
      out[length] := 0;
      output := out;
    }

    // The keys of the two SIV modes; the nonce of nonce mode is in the IV's place.
    ghost function Siv(): SivKey
      requires Valid()
      reads this
    {
      SivKey(Aes(cmacRk, nr), Aes(rk, nr), if mode == SIV_NONCE then Some(iv) else None)
    }

    method SivCrypt(input: Bytes) returns (output: array?<bv8>, length: nat)
      requires Valid()
      ensures output != null ==> fresh(output)
      ensures Returned(output, length, Some(AesModes.SivCrypt(Siv(), input)))
    {
      hide Aes, S2V, Ctr, Keyed, FirstCounter, AesModes.SivCrypt;
      SivCryptIs(Siv(), input);
      length := 16 + |input|;
      var siv := ComputeS2V(cmacRk, nr, if mode == SIV_NONCE then Some(iv) else None, input);
      var out := Assemble(siv, input, [], []);
      CtrInto(rk, nr, siv, input, out, 16);
      out[length] := 0;
      output := out;
    }

    method SivDecrypt(input: Bytes) returns (output: array?<bv8>, length: nat)
      requires Valid()
      ensures output != null ==> fresh(output)
      ensures Returned(output, length, AesModes.SivDecrypt(Siv(), input))
    {
      hide Aes, S2V, Ctr, Keyed, FirstCounter, AesModes.SivDecrypt;
      output, length := null, 0;
      SivDecryptIs(Siv(), input);
      if |input| <= 16 { return; }
      var siv := input[..16];
      var n := |input| - 16;
      var out := new bv8[n + 1];
      CtrInto(rk, nr, siv, input[16..], out, 0);
      assert out[..n] == Ctr(Aes(rk, nr), FirstCounter(siv), input[16..]);
      var sivCheck := ComputeS2V(cmacRk, nr, if mode == SIV_NONCE then Some(iv) else None, out[..n]);
      var equal := ConstTimeEqual(sivCheck, siv);
      if !equal { return; }
      out[n] := 0;
      output, length := out, n;
    }

    // XAES_Encrypt and XAES_Decrypt: the mode chooses. Every non-empty message comes back.
    method Encrypt(rand: nat -> bv8, input: Bytes) returns (output: array?<bv8>, length: nat)
      requires Valid()
      modifies this`iv
      ensures output != null ==> fresh(output)
      ensures var (result, next) := Sent(mode, old(Siv()), Aes(rk, nr), containIV, old(iv), rand, input);
        Returned(output, length, result) && iv == next
    {
      match mode
      case SIV => output, length := SivCrypt(input);
      case SIV_NONCE => output, length := SivCrypt(input);
      case XBC => output, length := XbcCrypt(rand, input);
      case CBC => output, length := CbcCrypt(input);
    }

    method Decrypt(input: Bytes) returns (output: array?<bv8>, length: nat)
      requires Valid()
      modifies this`iv
      ensures output != null ==> fresh(output)
      ensures var (result, next) := Opened(mode, old(Siv()), Aes(rk, nr), containIV, old(iv), input);
        Returned(output, length, result) && iv == next
    {
      match mode
      case SIV => output, length := SivDecrypt(input);
      case SIV_NONCE => output, length := SivDecrypt(input);
      case XBC => output, length := XbcDecrypt(input);
      case CBC => output, length := CbcDecrypt(input);
    }
  }

  lemma CbcCryptEmpty(k: Cipher, embed: bool, iv: Block)
    ensures AesModes.CbcCrypt(k, embed, iv, []) == (None, iv)
  {
  }

  lemma CbcCryptIs(k: Cipher, embed: bool, iv: Block, p: Bytes)
    requires p != []
    ensures var n := (|p| / 16 + 1) * 16 - |p|;
      var c := CbcEnc(k, iv, p + seq(n, _ => Byte(n)) + []);
      AesModes.CbcCrypt(k, embed, iv, p) == if embed then (Some(iv + c), iv) else (Some(c), Chained(iv, c))
  {
    hide CbcEnc, Byte;
    var n := (|p| / 16 + 1) * 16 - |p|;
    assert p + seq(n, _ => Byte(n)) + [] == Pad(p);
  }

  lemma WithEmpty(body: Bytes)
    ensures body + [] + [] == body
  {
  }

  lemma CbcDecryptIs(k: Cipher, embed: bool, iv: Block, x: Bytes)
    ensures AesModes.CbcDecrypt(k, embed, iv, x) ==
      match Received(embed, iv, x)
      case None => (None, iv)
      case Some(m) =>
        var result := Unpad(CbcDec(k, m.iv, m.body));
        (result, if embed || result == None then iv else Chained(m.iv, m.body))
  {
    hide CbcDec, Unpad, Chained;
  }

  lemma XbcCryptEmpty(k: Cipher, embed: bool, iv: Block, rand: nat -> bv8)
    ensures AesModes.XbcCrypt(k, embed, iv, rand, []) == (None, iv)
  {
  }

  lemma XbcCryptIs(k: Cipher, embed: bool, iv: Block, rand: nat -> bv8, p: Bytes)
    requires p != []
    ensures var n := (16 - (4 + |p|) % 16) % 16;
      var c := CbcEnc(k, iv, Header(n) + seq(n, i requires 0 <= i => rand(i)) + p);
      AesModes.XbcCrypt(k, embed, iv, rand, p) == if embed then (Some(iv + c), iv) else (Some(c), Chained(iv, c))
  {
    hide CbcEnc, Header;
  }

  lemma XbcDecryptIs(k: Cipher, embed: bool, iv: Block, x: Bytes)
    ensures AesModes.XbcDecrypt(k, embed, iv, x) ==
      match Received(embed, iv, x)
      case None => (None, iv)
      case Some(m) => (Stripped(CbcDec(k, m.iv, m.body)), if embed then iv else Chained(m.iv, m.body))
  {
    hide CbcDec, Stripped, Chained;
  }

  lemma SivCryptIs(s: SivKey, p: Bytes)
    ensures var siv := S2V(s.mac, s.nonce, p);
      AesModes.SivCrypt(s, p) == siv + Ctr(s.ctr, FirstCounter(siv), p)
  {
  }

  lemma SivDecryptIs(s: SivKey, x: Bytes)
    ensures AesModes.SivDecrypt(s, x) ==
      if |x| <= 16 then None
      else
        var p := Ctr(s.ctr, FirstCounter(x[..16]), x[16..]);
        if S2V(s.mac, s.nonce, p) == x[..16] then Some(p) else None
  {
    hide S2V, Ctr, FirstCounter;
  }
}
