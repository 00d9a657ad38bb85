/**
 What SHA-1 and SHA-256 share: big-endian words, the padding of section 5.1.1 of FIPS 180-4, the
 iteration over blocks, and how a message splits into blocks done and bytes waiting.
 */
module ShaStream {
  import opened ByteTools

  type Bytes = seq<bv8>
  type Chunk = b: Bytes | |b| == 64 witness seq(64, _ => 0)

  // ----- words -----

  function Word(b0: bv8, b1: bv8, b2: bv8, b3: bv8): bv32 {
    (b0 as bv32 << 24) | (b1 as bv32 << 16) | (b2 as bv32 << 8) | b3 as bv32
  }

  function WordAt(b: Bytes, i: nat): bv32
    requires 4 * i + 4 <= |b|
  {
    Word(b[4 * i], b[4 * i + 1], b[4 * i + 2], b[4 * i + 3])
  }

  function Low8(w: bv32): bv8 { (w & 0xff) as bv8 }

  function WordBytes(w: bv32): (r: Bytes)
    ensures |r| == 4
  {
    [Low8(w >> 24), Low8(w >> 16), Low8(w >> 8), Low8(w)]
  }

  // All the words, as bytes.
  function AllBytes(ws: seq<bv32>): (r: Bytes)
    ensures |r| == 4 * |ws|
  {
    if ws == [] then [] else AllBytes(ws[..|ws| - 1]) + WordBytes(ws[|ws| - 1])
  }

  lemma {:induction false} AllBytesAt(ws: seq<bv32>, i: nat)
    requires i < |ws|
    ensures AllBytes(ws)[4 * i..4 * i + 4] == WordBytes(ws[i])
  {
    hide WordBytes;
    var n := |ws| - 1;
    if i < n {
      AllBytesAt(ws[..n], i);
      assert AllBytes(ws)[4 * i..4 * i + 4] == AllBytes(ws[..n])[4 * i..4 * i + 4];
    }
  }

  // ----- functions on words -----

  function Ch(x: bv32, y: bv32, z: bv32): bv32 { (x & y) ^ (!x & z) }
  function Maj(x: bv32, y: bv32, z: bv32): bv32 { (x & y) ^ (x & z) ^ (y & z) }

  // Addition modulo 2^32.
  function Plus(x: bv32, y: bv32): bv32 { x + y }
  function Plus5(x: bv32, y: bv32, z: bv32, u: bv32, v: bv32): bv32 { x + y + z + u + v }

  // ----- words as numbers -----

  function WordValue(w: bv32): nat { w as nat }

  lemma BytesJoined(b0: bv8, b1: bv8, b2: bv8, b3: bv8)
    ensures ((b0 as bv32 << 24) | (b1 as bv32 << 16) | (b2 as bv32 << 8) | b3 as bv32) as nat ==
            b0 as nat * 0x100_0000 + b1 as nat * 0x1_0000 + b2 as nat * 0x100 + b3 as nat
  {
  }

  lemma WordOfBytes(w: bv32)
    ensures var b := WordBytes(w); Word(b[0], b[1], b[2], b[3]) == w
  {
  }

  // Section 3.1: the first byte of a word is its most significant one.
  lemma WordValueIs(b0: bv8, b1: bv8, b2: bv8, b3: bv8)
    ensures WordValue(Word(b0, b1, b2, b3)) == Value(b0) * 0x100_0000 + Value(b1) * 0x1_0000 + Value(b2) * 0x100 + Value(b3)
  {
    BytesJoined(b0, b1, b2, b3);
  }

  lemma BytesOfWord(b0: bv8, b1: bv8, b2: bv8, b3: bv8)
    ensures WordBytes(Word(b0, b1, b2, b3)) == [b0, b1, b2, b3]
  {
  }

  // The same without the functions above.
  lemma WordIs(b0: bv8, b1: bv8, b2: bv8, b3: bv8)
    ensures Word(b0, b1, b2, b3) as nat == b0 as nat * 0x100_0000 + b1 as nat * 0x1_0000 + b2 as nat * 0x100 + b3 as nat
    ensures WordBytes(Word(b0, b1, b2, b3)) == [b0, b1, b2, b3]
  {
    WordValueIs(b0, b1, b2, b3);
    BytesOfWord(b0, b1, b2, b3);
    hide Word, WordBytes;
  }

  // So a word is written as the bytes of its number.
  lemma WordBytesNumber(w: bv32)
    ensures Number(WordBytes(w)) == WordValue(w)
  {
    var b := WordBytes(w);
    WordOfBytes(w);
    hide Word, WordBytes, Number, WordValue, Value;
    WordValueIs(b[0], b[1], b[2], b[3]);
    FourBytes(b);
  }

  // ----- padding -----

  function ToWord(n: nat): bv32 { (n % 0x1_0000_0000) as bv32 }

  // The length of a message of n bytes in bits, as a 64-bit number.
  function LengthBytes(n: nat): (r: Bytes)
    ensures |r| == 8
  {
    WordBytes(ToWord(8 * n / 0x1_0000_0000)) + WordBytes(ToWord(8 * n))
  }

  lemma WordOfValue(w: bv32)
    ensures (w as nat) as bv32 == w
  {
  }

  lemma ToWordOfValue(w: bv32, n: nat)
    requires n % 0x1_0000_0000 == WordValue(w)
    ensures ToWord(n) == w
  {
    WordOfValue(w);
  }

  // The digits of a number to base 256.
  lemma Digits(m: nat) returns (d0: nat, d1: nat, d2: nat, d3: nat)
    requires m < 0x1_0000_0000
    ensures d0 < 256 && d1 < 256 && d2 < 256 && d3 < 256
    ensures m == d0 * 0x100_0000 + d1 * 0x1_0000 + d2 * 0x100 + d3
  {
    var high, low := m / 0x1_0000, m % 0x1_0000;
    d0, d1, d2, d3 := high / 256, high % 256, low / 256, low % 256;
  }

  lemma ToWordIs(n: nat)
    ensures WordValue(ToWord(n)) == n % 0x1_0000_0000
  {
    hide Word, Byte, Value, WordValue, ToWord;
    var d0, d1, d2, d3 := Digits(n % 0x1_0000_0000);
    ByteIs(d0, Byte(d0));
    ByteIs(d1, Byte(d1));
    ByteIs(d2, Byte(d2));
    ByteIs(d3, Byte(d3));
    WordValueIs(Byte(d0), Byte(d1), Byte(d2), Byte(d3));
    ToWordOfValue(Word(Byte(d0), Byte(d1), Byte(d2), Byte(d3)), n);
  }

  // The length field is the number of bits, modulo 2^64, most significant byte first.
  lemma LengthBytesNumber(n: nat)
    ensures Number(LengthBytes(n)) == 8 * n % 0x1_0000_0000_0000_0000
  {
    hide WordBytes, Number, WordValue, Value, ToWord;
    var high, low := ToWord(8 * n / 0x1_0000_0000), ToWord(8 * n);
    ToWordIs(8 * n / 0x1_0000_0000);
    ToWordIs(8 * n);
    WordBytesNumber(high);
    WordBytesNumber(low);
    var b := LengthBytes(n);
    assert b[..4] == WordBytes(high) && b[4..] == WordBytes(low);
    NumberOfHalves(b);
  }

  // A 1 bit, and 0 bits up to 56 bytes into a block.
  function PadLength(n: nat): (p: nat)
    ensures 1 <= p <= 64 && (n + p) % 64 == 56 && (n + p + 8) % 64 == 0
  {
    if n % 64 < 56 then 56 - n % 64 else 120 - n % 64
  }

  function Padding(n: nat): (r: Bytes)
    ensures |r| == PadLength(n)
  {
    [0x80] + seq(PadLength(n) - 1, _ => 0)
  }

  function Padded(m: Bytes): (r: Bytes)
    ensures |r| % 64 == 0
  {
    m + Padding(|m|) + LengthBytes(|m|)
  }

  // ----- iteration -----

  function Fold<H>(c: (H, Chunk) -> H, h: H, b: Bytes): H
    requires |b| % 64 == 0
    decreases |b|
  {
    if b == [] then h else Fold(c, c(h, b[..64]), b[64..])
  }

  lemma {:induction false} FoldAppend<H>(c: (H, Chunk) -> H, h: H, a: Bytes, b: Bytes)
    requires |a| % 64 == 0 && |b| % 64 == 0
    ensures Fold(c, h, a + b) == Fold(c, Fold(c, h, a), b)
    decreases |a|
  {
    if a == [] {
      assert a + b == b;
    } else {
      assert (a + b)[..64] == a[..64] && (a + b)[64..] == a[64..] + b;
      FoldAppend(c, c(h, a[..64]), a[64..], b);
    }
  }

  lemma FoldOne<H>(c: (H, Chunk) -> H, h: H, b: Chunk)
    ensures Fold(c, h, b) == c(h, b)
  {
    assert b[..64] == b && b[64..] == [];
  }

  // ----- what is done and what waits -----

  function Done(m: Bytes): (r: Bytes)
    ensures |r| % 64 == 0
  {
    m[..|m| / 64 * 64]
  }

  function Rest(m: Bytes): (r: Bytes)
    ensures |r| == |m| % 64
  {
    m[|m| / 64 * 64..]
  }

  lemma Whole(m: Bytes)
    ensures m == Done(m) + Rest(m)
  {
  }

  // More bytes that do not fill the block, or fill it exactly.
  lemma SplitGrows(m: Bytes, p: Bytes)
    ensures |Rest(m)| + |p| < 64 ==> Done(m + p) == Done(m) && Rest(m + p) == Rest(m) + p
    ensures |Rest(m)| + |p| == 64 ==> Done(m + p) == Done(m) + (Rest(m) + p) && Rest(m + p) == []
  {
    var n := m + p;
    Whole(m);
    if |Rest(m)| + |p| < 64 {
      assert |n| / 64 == |m| / 64;
    } else if |Rest(m)| + |p| == 64 {
      assert |n| / 64 == |m| / 64 + 1;
      assert n == Done(m) + (Rest(m) + p);
    }
  }

  lemma ConcatNext(parts: seq<Bytes>, i: nat)
    ensures Concat(parts[..0]) == []
    ensures i < |parts| ==> Concat(parts[..i + 1]) == Concat(parts[..i]) + parts[i]
  {
    if i < |parts| { assert parts[..i + 1][..i] == parts[..i]; }
  }

  function Concat(parts: seq<Bytes>): Bytes {
    if parts == [] then [] else Concat(parts[..|parts| - 1]) + parts[|parts| - 1]
  }

  lemma WholeIsDone(m: Bytes)
    requires |m| % 64 == 0
    ensures Done(m) == m
  {
  }

  lemma ToWordCut(x: nat, y: nat)
    requires x % 0x1_0000_0000 == y % 0x1_0000_0000
    ensures ToWord(x) == ToWord(y)
  {
  }

  // ----- the forms of the majority function -----

  function Both(x: bv32, y: bv32): bv32 { x & y }
  function Either(x: bv32, y: bv32): bv32 { x | y }
  function Odd(x: bv32, y: bv32): bv32 { x ^ y }

  lemma OrIsXor(x: bv32, y: bv32)
    requires x & y == 0
    ensures x | y == x ^ y
  {
  }

  lemma EitherIsOdd(x: bv32, y: bv32)
    requires Both(x, y) == 0
    ensures Either(x, y) == Odd(x, y)
  {
    OrIsXor(x, y);
  }

  function MajMiddle(x: bv32, y: bv32, z: bv32): bv32 { Either(Both(x, y), Both(Odd(x, y), z)) }

  lemma MajApart(x: bv32, y: bv32, z: bv32)
    ensures Both(Both(x, y), Both(Odd(x, y), z)) == 0
  {
  }

  lemma MajOdd(x: bv32, y: bv32, z: bv32)
    ensures Odd(Both(x, y), Both(Odd(x, y), z)) == Maj(x, y, z)
  {
  }

  lemma MajFromMiddle(x: bv32, y: bv32, z: bv32)
    ensures MajMiddle(x, y, z) == Maj(x, y, z)
  {
    hide Both, Either, Odd, Maj;
    MajApart(x, y, z);
    MajOdd(x, y, z);
    EitherIsOdd(Both(x, y), Both(Odd(x, y), z));
  }
}
