/**
 The cipher names of src/crypt/crypt.c, what each cipher of a chain computes and what a chain of
 them computes, and that a chain is undone by decrypting with its names reversed.
 */
module CryptModel {
  import opened Options
  import AesBlock
  import AesCipher
  import AesModes
  import Base64
  import ByteTools

  type Bytes = seq<bv8>

  // xcrypt_chipher_t, without the ciphers of a build with SSL.
  datatype Cipher =
    | AES | HEX | XOR | CRC32 | CRC32B | CASEAR | BASE64 | B64URL | SHA1 | HS256 | SHA256 | MD5
    | MD5_SUM | MD5_HMAC | SHA1_SUM | SHA256_SUM | REVERSE | MULTY | INVALID

  // ======================= names =======================

  // XCrypt_GetCipher: the first name in this order that the text begins with.
  function GetCipher(name: string): Cipher {
    if Starts(name, "aes") then AES
    else if Starts(name, "hex") then HEX
    else if Starts(name, "xor") then XOR
    else if Starts(name, "crc32") then CRC32
    else if Starts(name, "crc32b") then CRC32B
    else if Starts(name, "casear") then CASEAR
    else if Starts(name, "b64url") then B64URL
    else if Starts(name, "base64") then BASE64
    else if Starts(name, "reverse") then REVERSE
    else if Starts(name, "sha1sum") then SHA1_SUM
    else if Starts(name, "sha256sum") then SHA256_SUM
    else if Starts(name, "md5hmac") then MD5_HMAC
    else if Starts(name, "md5sum") then MD5_SUM
    else if Starts(name, "sha256") then SHA256
    else if Starts(name, "hs256") then HS256
    else if Starts(name, "sha1") then SHA1
    else if Starts(name, "md5") then MD5
    else INVALID
  }

  // XCrypt_GetCipherStr
  function GetCipherStr(c: Cipher): string {
    match c
    case AES => "aes"
    case HEX => "hex"
    case XOR => "xor"
    case CRC32 => "crc32"
    case CRC32B => "crc32b"
    case CASEAR => "casear"
    case BASE64 => "base64"
    case B64URL => "b64url"
    case MD5 => "md5"
    case SHA1 => "sha1"
    case HS256 => "h256"
    case SHA256 => "sha256"
    case MD5_SUM => "md5sum"
    case MD5_HMAC => "md5hmac"
    case SHA1_SUM => "sha1sum"
    case SHA256_SUM => "sha256sum"
    case REVERSE => "reverse"
    case MULTY => "multy"
    case INVALID => "invalid"
  }

  // strncmp of the length of the second text.
  predicate Starts(name: string, prefix: string) { prefix <= name }

  lemma Differ(name: string, prefix: string, i: nat)
    requires i < |prefix| && (i < |name| ==> name[i] != prefix[i])
    ensures !Starts(name, prefix)
  {
  }

  lemma FirstDiffers(name: string)
    requires name != []
    ensures name[0] != 'a' ==> !Starts(name, "aes")
    ensures name[0] != 'h' ==> !Starts(name, "hex")
    ensures name[0] != 'x' ==> !Starts(name, "xor")
    ensures name[0] != 'c' ==> !Starts(name, "crc32")
    ensures name[0] != 'c' ==> !Starts(name, "crc32b")
    ensures name[0] != 'c' ==> !Starts(name, "casear")
    ensures name[0] != 'b' ==> !Starts(name, "b64url")
    ensures name[0] != 'b' ==> !Starts(name, "base64")
    ensures name[0] != 'r' ==> !Starts(name, "reverse")
    ensures name[0] != 's' ==> !Starts(name, "sha1sum")
    ensures name[0] != 's' ==> !Starts(name, "sha256sum")
    ensures name[0] != 'm' ==> !Starts(name, "md5hmac")
    ensures name[0] != 'm' ==> !Starts(name, "md5sum")
    ensures name[0] != 's' ==> !Starts(name, "sha256")
    ensures name[0] != 'h' ==> !Starts(name, "hs256")
    ensures name[0] != 's' ==> !Starts(name, "sha1")
    ensures name[0] != 'm' ==> !Starts(name, "md5")
  {
  }

  // A cipher's name names it, but for three: "crc32b" is read as "crc32", which is tried first,
  // HS256 is written "h256" and read as "hs256", and there is no way to name MULTY.
  lemma NamesReadBack(c: Cipher)
    ensures GetCipher(GetCipherStr(c)) == c <==> c != CRC32B && c != HS256 && c != MULTY
    ensures c == CRC32B ==> GetCipher(GetCipherStr(c)) == CRC32
  {
    hide Starts;
    var n := GetCipherStr(c);
    FirstDiffers(n);
    assert Starts(n, n) by { Itself(n); }
    match c
    case CRC32B => assert Starts(n, "crc32") by { Shorter(); }
    case CASEAR => Differ(n, "crc32", 1); Differ(n, "crc32b", 1);
    case BASE64 => Differ(n, "b64url", 1);
    case HS256 => Differ(n, "hex", 1); Differ(n, "hs256", 1);
    case SHA1 => Differ(n, "sha1sum", 4); Differ(n, "sha256sum", 3); Differ(n, "sha256", 3);
    case SHA256 => Differ(n, "sha1sum", 3); Differ(n, "sha256sum", 6);
    case SHA256_SUM => Differ(n, "sha1sum", 3);
    case MD5 => Differ(n, "md5hmac", 3); Differ(n, "md5sum", 3);
    case MD5_SUM => Differ(n, "md5hmac", 3);
    case MULTY => Differ(n, "md5hmac", 1); Differ(n, "md5sum", 1); Differ(n, "md5", 1);
    case _ =>
  }

  lemma Itself(name: string)
    ensures Starts(name, name)
  {
  }

  lemma Shorter()
    ensures Starts("crc32b", "crc32")
  {
    assert "crc32b"[..5] == "crc32";
  }

  // XCrypt_NeedsKey and XCrypt_NeedsIV
  predicate NeedsKey(c: Cipher) { c == AES || c == XOR || c == CASEAR || c == HS256 || c == MD5_HMAC }
  predicate NeedsIV(c: Cipher) { c == AES }

  // ======================= keys =======================

  // sKey and nLength of xcrypt_key_t: a number of bytes, or of bits for AES.
  datatype Material = Material(sKey: Bytes, length: nat)
  type Key = k: Material | |k.sKey| == 2048 && k.length <= 2048 witness NO_KEY
  const NO_KEY := Material(seq(2048, _ => 0), 0)

  type RoundKeys = r: Bytes | |r| == 240 witness seq(240, _ => 0)

  // The user's callback, asked for keys and for IVs; it may refuse.
  datatype Callback = Callback(key: Cipher -> Option<Key>, iv: Cipher -> Option<AesBlock.Block>)

  // What a chain runs in: the callback or none, the key expansion of AES, and the ciphers that are
  // not modelled here.
  datatype Setting = Setting(callback: Option<Callback>, expand: Bytes -> RoundKeys,
    otherEncrypt: (Cipher, Bytes) -> Option<Bytes>, otherDecrypt: (Cipher, Bytes) -> Option<Bytes>)

  function ZeroBlock(): AesBlock.Block { seq(16, _ => 0) }

  datatype KeyAndIV = KeyAndIV(key: Key, iv: AesBlock.Block)

  // XCrypt_KeyCallback: zeros where nothing is asked for, nothing when the callback refuses.
  function KeyOf(s: Setting, c: Cipher): Option<KeyAndIV> {
    if !NeedsKey(c) || s.callback == None then Some(KeyAndIV(NO_KEY, ZeroBlock()))
    else
      match s.callback.value.key(c)
      case None => None
      case Some(k) =>
        if !NeedsIV(c) then Some(KeyAndIV(k, ZeroBlock()))
        else
          match s.callback.value.iv(c)
          case None => None
          case Some(iv) => Some(KeyAndIV(k, iv))
  }

  predicate AesSize(n: nat) { n == 128 || n == 192 || n == 256 }

  function Rounds(n: nat): nat { if n == 128 then 10 else if n == 192 then 12 else 14 }

  function AesOf(s: Setting, k: Key): AesModes.Cipher
    requires AesSize(k.length)
  {
    AesModes.Aes(s.expand(k.sKey[..k.length / 8]), Rounds(k.length))
  }

  // XAES_InitKey: an IV whose first byte is 0 counts as none, and a random one is taken.
  function FirstIV(iv: AesBlock.Block, random: AesBlock.Block): AesBlock.Block {
    if iv[0] != 0 then iv else random
  }

  // ======================= single ciphers =======================

  // XCrypt_XOR
  function XorWith(p: Bytes, key: Bytes): (r: Bytes)
    requires key != []
    ensures |r| == |p|
  {
    seq(|p|, i requires 0 <= i < |p| => p[i] ^ key[i % |key|])
  }

  // XCrypt_Reverse
  function Reversed<T>(p: seq<T>): (r: seq<T>)
    ensures |r| == |p|
    ensures forall i | 0 <= i < |p| :: r[i] == p[|p| - 1 - i]
  {
    if p == [] then [] else Reversed(p[1..]) + [p[0]]
  }

  lemma XorUndone(p: Bytes, key: Bytes)
    requires key != []
    ensures XorWith(XorWith(p, key), key) == p
  {
    forall i | 0 <= i < |p| ensures XorWith(XorWith(p, key), key)[i] == p[i] {
      ByteTools.XorTwice(p[i], key[i % |key|]);
    }
  }

  // What is added to a byte is the key's at its place, the key repeating as often as it takes.
  lemma XorRepeats(p: Bytes, key: Bytes, i: nat)
    requires key != [] && i < |p|
    ensures XorWith(p, key)[i] ^ p[i] == key[i % |key|]
  {
    XorUndoes(p[i], key[i % |key|]);
  }

  // So zeros, as many as the key has bytes, give the key.
  lemma XorOfZeros(key: Bytes)
    requires key != []
    ensures XorWith(seq(|key|, _ => 0), key) == key
  {
    forall j | 0 <= j < |key| ensures XorWith(seq(|key|, _ => 0), key)[j] == key[j] {
      ZeroXor(key[j]);
      Within(j, |key|);
    }
  }

  lemma Within(j: nat, n: nat)
    requires j < n
    ensures j % n == j
  {
  }

  lemma XorUndoes(x: bv8, y: bv8)
    ensures (x ^ y) ^ x == y
  {
  }

  lemma ZeroXor(x: bv8)
    ensures 0 ^ x == x
  {
  }

  lemma ReverseUndone(p: Bytes)
    ensures Reversed(Reversed(p)) == p
  {
    forall i | 0 <= i < |p| ensures Reversed(Reversed(p))[i] == p[i] {
      assert Reversed(Reversed(p))[i] == Reversed(p)[|p| - 1 - i];
    }
  }

  // XCrypt_Single, with the random block an AES cipher may take.
  function EncryptOne(s: Setting, c: Cipher, random: AesBlock.Block, p: Bytes): Option<Bytes> {
    match KeyOf(s, c)
    case None => None
    case Some(KeyAndIV(k, iv)) =>
      match c
      case XOR => if p == [] || k.length == 0 then None else Some(XorWith(p, k.sKey[..k.length]))
      case REVERSE => if p == [] then None else Some(Reversed(p))
      case BASE64 => if p == [] then None else Some(Base64.Encode(false, p))
      case B64URL => if p == [] then None else Some(Base64.Encode(true, p))
      case AES =>
        if p == [] || k.length == 0 then None
        else if !AesSize(k.length) then s.otherEncrypt(c, p)
        else AesModes.CbcCrypt(AesOf(s, k), true, FirstIV(iv, random), p).0
      case _ => s.otherEncrypt(c, p)
  }

  // XDecrypt_Single
  function DecryptOne(s: Setting, c: Cipher, random: AesBlock.Block, x: Bytes): Option<Bytes> {
    match KeyOf(s, c)
    case None => None
    case Some(KeyAndIV(k, iv)) =>
      match c
      case XOR => if x == [] || k.length == 0 then None else Some(XorWith(x, k.sKey[..k.length]))
      case REVERSE => if x == [] then None else Some(Reversed(x))
      case BASE64 => Base64.DecodeEither(false, x)
      case B64URL => Base64.DecodeEither(true, x)
      case AES =>
        if x == [] || k.length == 0 then None
        else if !AesSize(k.length) then s.otherDecrypt(c, x)
        else AesModes.CbcDecrypt(AesOf(s, k), true, FirstIV(iv, random), x).0
      case _ => s.otherDecrypt(c, x)
  }

  // ======================= chains =======================

  function One(s: Setting, decrypt: bool, c: Cipher, random: AesBlock.Block, p: Bytes): Option<Bytes> {
    if decrypt then DecryptOne(s, c, random, p) else EncryptOne(s, c, random, p)
  }

  // The loop of XCrypt_Multy from the cipher numbered `at` on.
  function Chain(s: Setting, decrypt: bool, names: seq<string>, random: nat -> AesBlock.Block, at: nat, p: Bytes): Option<Bytes> {
    if names == [] then Some(p)
    else if GetCipher(names[0]) == INVALID then None
    else
      match One(s, decrypt, GetCipher(names[0]), random(at), p)
      case None => None
      case Some(q) => Chain(s, decrypt, names[1..], random, at + 1, q)
  }

  // XCrypt_Multy, with the names already split.
  function Multy(s: Setting, decrypt: bool, names: seq<string>, random: nat -> AesBlock.Block, p: Bytes): Option<Bytes> {
    if p == [] then None else Chain(s, decrypt, names, random, 0, p)
  }

  // The ciphers that have an inverse here; an AES key, when there is one, of a valid size.
  predicate Invertible(s: Setting, c: Cipher) {
    && (c == XOR || c == REVERSE || c == BASE64 || c == B64URL || c == AES)
    && (c == AES && KeyOf(s, c).Some? ==> KeyOf(s, c).value.key.length == 0 || AesSize(KeyOf(s, c).value.key.length))
  }

  // The callback gives a cipher that needs a key a non-empty one, and AES an IV.
  predicate Provided(s: Setting, c: Cipher) {
    NeedsKey(c) ==> KeyOf(s, c).Some? && KeyOf(s, c).value.key.length > 0
  }

  // One cipher: it encrypts exactly when its key is provided, and decrypting undoes it, with
  // whatever random blocks the two took.
  lemma OneUndone(s: Setting, c: Cipher, r1: AesBlock.Block, r2: AesBlock.Block, p: Bytes)
    requires Invertible(s, c) && p != []
    ensures EncryptOne(s, c, r1, p).Some? <==> Provided(s, c)
    ensures Provided(s, c) ==>
      var q := EncryptOne(s, c, r1, p).value;
      q != [] && DecryptOne(s, c, r2, q) == Some(p)
  {
    hide XorWith, Reversed, Base64.Encode, Base64.DecodeEither, AesModes.CbcCrypt, AesModes.CbcDecrypt, AesModes.Aes;
    if Provided(s, c) {
      match c
      case XOR => XorUndone(p, KeyOf(s, c).value.key.sKey[..KeyOf(s, c).value.key.length]);
      case REVERSE => ReverseUndone(p);
      case BASE64 => Base64.DecodeUndoesEncode(false, p);
      case B64URL => Base64.DecodeUndoesEncode(true, p);
      case AES =>
        var KeyAndIV(k, iv) := KeyOf(s, c).value;
        AesUndone(AesOf(s, k), s.expand(k.sKey[..k.length / 8]), Rounds(k.length), FirstIV(iv, r1), FirstIV(iv, r2), p);
    }
  }

  lemma AesUndone(k: AesModes.Cipher, rk: Bytes, nr: nat, iv: AesBlock.Block, other: AesBlock.Block, p: Bytes)
    requires AesCipher.Keyed(rk, nr) && k == AesModes.Aes(rk, nr) && p != []
    ensures AesModes.CbcCrypt(k, true, iv, p).0.Some?
    ensures var q := AesModes.CbcCrypt(k, true, iv, p).0.value;
      q != [] && AesModes.CbcDecrypt(k, true, other, q).0 == Some(p)
  {
    hide AesModes.CbcDecrypt, AesModes.Aes, AesModes.CbcEnc, AesModes.Pad;
    AesModes.AesInverse(rk, nr);
    AesModes.CbcRoundTrip(k, true, iv, other, p);
  }

  lemma {:induction false} ChainAppend(s: Setting, decrypt: bool, a: seq<string>, b: seq<string>, random: nat -> AesBlock.Block, at: nat, p: Bytes)
    ensures Chain(s, decrypt, a + b, random, at, p) ==
            match Chain(s, decrypt, a, random, at, p) case None => None case Some(q) => Chain(s, decrypt, b, random, at + |a|, q)
  {
    hide One, GetCipher;
    if a == [] {
      assert a + b == b;
    } else {
      assert (a + b)[1..] == a[1..] + b;
      match One(s, decrypt, GetCipher(a[0]), random(at), p)
      case None =>
      case Some(q) => ChainAppend(s, decrypt, a[1..], b, random, at + 1, q);
    }
  }

  // A chain of such ciphers encrypts every non-empty input exactly when every key it needs is
  // provided, and decrypting with the names reversed gives the input back.
  lemma {:induction false} ChainUndone(s: Setting, names: seq<string>, r1: nat -> AesBlock.Block, at1: nat, r2: nat -> AesBlock.Block, at2: nat, p: Bytes)
    requires p != [] && (forall n | n in names :: Invertible(s, GetCipher(n)))
    ensures Chain(s, false, names, r1, at1, p).Some? <==> (forall n | n in names :: Provided(s, GetCipher(n)))
    ensures Chain(s, false, names, r1, at1, p).Some? ==>
      var q := Chain(s, false, names, r1, at1, p).value;
      q != [] && Chain(s, true, Reversed(names), r2, at2, q) == Some(p)
  {
    hide GetCipher, EncryptOne, DecryptOne, Provided;
    if names != [] {
      var c := GetCipher(names[0]);
      assert names == [names[0]] + names[1..];
      assert names[0] in names && Invertible(s, c);
      var last := at2 + |names| - 1;
      OneUndone(s, c, r1(at1), r2(last), p);
      if Provided(s, c) {
        var q := EncryptOne(s, c, r1(at1), p).value;
        ChainUndone(s, names[1..], r1, at1 + 1, r2, at2, q);
        if Chain(s, false, names, r1, at1, p).Some? {
          var x := Chain(s, false, names, r1, at1, p).value;
          ChainAppend(s, true, Reversed(names[1..]), [names[0]], r2, at2, x);
          assert Chain(s, true, [names[0]], r2, last, q) == Some(p);
        }
      }
    }
  }

  lemma MultyUndone(s: Setting, names: seq<string>, r1: nat -> AesBlock.Block, r2: nat -> AesBlock.Block, p: Bytes)
    requires forall n | n in names :: Invertible(s, GetCipher(n))
    ensures Multy(s, false, names, r1, p).Some? <==> p != [] && (forall n | n in names :: Provided(s, GetCipher(n)))
    ensures Multy(s, false, names, r1, p).Some? ==>
      Multy(s, true, Reversed(names), r2, Multy(s, false, names, r1, p).value) == Some(p)
  {
    hide GetCipher, Provided, Invertible, Chain;
    if p != [] { ChainUndone(s, names, r1, 0, r2, 0, p); }
  }
}
