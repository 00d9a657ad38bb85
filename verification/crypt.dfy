/**
 The codecs and cipher chains of src/crypt/crypt.c as they run: each cipher fills a new buffer,
 and a chain hands each buffer on to the next cipher.
 */
module Crypt {
  import opened Options
  import opened CryptModel
  import AesBlock
  import AesModes
  import AesContext
  import Base64

  // XCrypt_XOR
  method XorCrypt(input: Bytes, key: Bytes) returns (output: array?<bv8>, length: nat)
    ensures output != null ==> fresh(output)
    ensures Returned(output, length, if input == [] || key == [] then None else Some(XorWith(input, key)))
  {
    if |input| == 0 || |key| == 0 { return null, 0; }
    output, length := new bv8[|input| + 1], |input|;
    for i := 0 to |input|
      invariant forall k | 0 <= k < i :: output[k] == XorWith(input, key)[k]
    {
      output[i] := input[i] ^ key[i % |key|];
    }
    output[length] := 0;
    assert output[..length] == XorWith(input, key);
  }

  // XCrypt_Reverse
  method Reverse(input: Bytes) returns (output: array?<bv8>, length: nat)
    ensures output != null ==> fresh(output)
    ensures Returned(output, length, if input == [] then None else Some(Reversed(input)))
  {
    if |input| == 0 { return null, 0; }
    output, length := new bv8[|input| + 1], |input|;
    for i := 0 to |input|
      invariant forall k | 0 <= k < i :: output[k] == Reversed(input)[k]
    {
      output[i] := input[|input| - (i + 1)];
    }
    output[length] := 0;
    assert output[..length] == Reversed(input);
  }

  // XCrypt_AES and XDecrypt_AES: a CBC context with the IV in front of the message, for this call.
  method AesCrypt(s: Setting, k: Key, iv: AesBlock.Block, decrypt: bool, input: Bytes) returns (output: array?<bv8>, length: nat)
    requires AesSize(k.length)
    ensures output != null ==> fresh(output)
    ensures Returned(output, length,
      if decrypt then AesModes.CbcDecrypt(AesOf(s, k), true, iv, input).0 else AesModes.CbcCrypt(AesOf(s, k), true, iv, input).0)
  {
    hide AesModes.CbcCrypt, AesModes.CbcDecrypt, AesModes.Aes, Returned;
    var rk: Bytes := s.expand(k.sKey[..k.length / 8]);
    var ctx := new AesContext.Context(AesContext.CBC, rk, rk, Rounds(k.length), iv, true);
    if decrypt {
      output, length := ctx.Decrypt(input);
    } else {
      output, length := ctx.Encrypt(_ => 0, input);
    }
  }

  // What a cipher that is not modelled returns.
  method Other(result: Option<Bytes>) returns (output: array?<bv8>, length: nat)
    ensures output != null ==> fresh(output)
    ensures Returned(output, length, result)
  {
    if result == None { return null, 0; }
    length := |result.value|;
    output := new bv8[length + 1](i requires 0 <= i <= length => if i < length then result.value[i] else 0);
    assert output[..length] == result.value;
  }

  // XCrypt_Single
  method EncryptSingle(s: Setting, c: Cipher, random: AesBlock.Block, input: Bytes) returns (output: array?<bv8>, length: nat)
    ensures output != null ==> fresh(output)
    ensures Returned(output, length, EncryptOne(s, c, random, input))
  {
    hide AesModes.CbcCrypt, AesOf, XorWith, Reversed, Base64.Encode, Returned, KeyOf, FirstIV;
    var given := KeyOf(s, c);
    if given == None { output, length := Other(None); return; }
    var key, iv: AesBlock.Block := given.value.key, FirstIV(given.value.iv, random);
    match c
    case XOR => output, length := XorCrypt(input, key.sKey[..key.length]);
    case REVERSE => output, length := Reverse(input);
    case BASE64 => output, length := Base64.Encrypt(input);
    case B64URL => output, length := Base64.UrlEncrypt(input);
    case AES =>
      if |input| == 0 || key.length == 0 { output, length := Other(None); }
      else if AesSize(key.length) { output, length := AesCrypt(s, key, iv, false, input); }
      else { output, length := Other(s.otherEncrypt(c, input)); }
    case _ => output, length := Other(s.otherEncrypt(c, input));
  }

  // XDecrypt_Single
  method DecryptSingle(s: Setting, c: Cipher, random: AesBlock.Block, input: Bytes) returns (output: array?<bv8>, length: nat)
    ensures output != null ==> fresh(output)
    ensures Returned(output, length, DecryptOne(s, c, random, input))
  {
    hide AesModes.CbcDecrypt, AesOf, XorWith, Reversed, Base64.Decode, Returned, KeyOf, FirstIV;
    var given := KeyOf(s, c);
    if given == None { output, length := Other(None); return; }
    var key, iv: AesBlock.Block := given.value.key, FirstIV(given.value.iv, random);
    match c
    case XOR => output, length := XorCrypt(input, key.sKey[..key.length]);
    case REVERSE => output, length := Reverse(input);
    case BASE64 => output, length := Base64.Decrypt(input);
    case B64URL => output, length := Base64.UrlDecrypt(input);
    case AES =>
      if |input| == 0 || key.length == 0 { output, length := Other(None); }
      else if AesSize(key.length) { output, length := AesCrypt(s, key, iv, true, input); }
      else { output, length := Other(s.otherDecrypt(c, input)); }
    case _ => output, length := Other(s.otherDecrypt(c, input));
  }

  // XCrypt_Multy, with the names already split.
  method Run(s: Setting, decrypt: bool, names: seq<string>, random: nat -> AesBlock.Block, input: Bytes) returns (output: array?<bv8>, length: nat)
    ensures output != null ==> fresh(output)
    ensures Returned(output, length, Multy(s, decrypt, names, random, input))
  {
    hide EncryptOne, DecryptOne, GetCipher;
    if |input| == 0 { return null, 0; }
    output, length := Other(Some(input));
    assert names[0..] == names;
    var i := 0;
    while i < |names| && output != null
      invariant i <= |names|
      invariant output != null ==> fresh(output) && length < output.Length && output[length] == 0
      invariant output != null ==> Chain(s, decrypt, names[i..], random, i, output[..length]) == Multy(s, decrypt, names, random, input)
      invariant output == null ==> Multy(s, decrypt, names, random, input) == None
      decreases |names| - i
    {
      var c := GetCipher(names[i]);
      if c == INVALID { return null, 0; }
      ghost var data := output[..length];
      ghost var rest := names[i..];
      assert rest[0] == names[i] && rest[1..] == names[i + 1..];
      if decrypt {
        output, length := DecryptSingle(s, c, random(i), output[..length]);
      } else {
        output, length := EncryptSingle(s, c, random(i), output[..length]);
      }
      assert Returned(output, length, One(s, decrypt, c, random(i), data));
      i := i + 1;
    }
  }
}
