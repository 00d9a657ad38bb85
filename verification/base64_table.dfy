/**
 Encodings of Base64 and Base64url by number: which six bits each symbol stands for, and the symbol
 that tables 1 and 2 of RFC 4648 have for them.
 */
module Base64Table {
  import opened Base64
  import opened ByteTools

  // The code of the n-th symbol of the alphabet.
  function Ascii(url: bool, n: nat): nat {
    if n < 26 then 'A' as nat + n
    else if n < 52 then 'a' as nat + (n - 26)
    else if n < 62 then '0' as nat + (n - 52)
    else if n == 62 then (if url then '-' else '+') as nat
    else (if url then '_' else '/') as nat
  }

  lemma SymbolIs(url: bool, s: bv8)
    requires s < 64
    ensures Symbol(url, s) as nat == Ascii(url, s as nat)
  {
  }

  // And back, for the bytes of the first alphabet.
  lemma TableValueIs(c: bv8)
    requires IsSymbol(c)
    ensures TableValue(c) < 64 && c as nat == Ascii(false, TableValue(c) as nat)
  {
  }

  // ----- the bits of three bytes, six at a time -----

  lemma Sextets(a: bv8, b: bv8, c: bv8)
    ensures var t := Triple(a, b, c);
      Sextet0(t) == a >> 2 && Sextet1(t) == ((a & 3) << 4) | (b >> 4) &&
      Sextet2(t) == ((b & 15) << 2) | (c >> 6) && Sextet3(t) == c & 63
  {
  }

  lemma TopSix(a: bv8) ensures (a >> 2) as nat == a as nat / 4 {}
  lemma LowSix(c: bv8) ensures (c & 63) as nat == c as nat % 64 {}
  lemma LowTwo(a: bv8) ensures (a & 3) < 4 && (a & 3) as nat == a as nat % 4 {}
  lemma TopFour(b: bv8) ensures (b >> 4) < 16 && (b >> 4) as nat == b as nat / 16 {}
  lemma LowFour(b: bv8) ensures (b & 15) < 16 && (b & 15) as nat == b as nat % 16 {}
  lemma TopTwo(c: bv8) ensures (c >> 6) < 4 && (c >> 6) as nat == c as nat / 64 {}

  function TwoFour(x: bv8, y: bv8): bv8 { (x << 4) | y }
  function FourTwo(x: bv8, y: bv8): bv8 { (x << 2) | y }

  lemma TwoFourIs(x: bv8, y: bv8)
    requires x < 4 && y < 16
    ensures TwoFour(x, y) as nat == 16 * x as nat + y as nat
  {
  }

  lemma FourTwoIs(x: bv8, y: bv8)
    requires x < 16 && y < 4
    ensures FourTwo(x, y) as nat == 4 * x as nat + y as nat
  {
  }

  lemma MiddleSix(a: bv8, b: bv8)
    ensures Value(TwoFour(a & 3, b >> 4)) == Value(a) % 4 * 16 + Value(b) / 16
    ensures Value(FourTwo(a & 15, b >> 6)) == Value(a) % 16 * 4 + Value(b) / 64
  {
    LowTwo(a);
    TopFour(b);
    LowFour(a);
    TopTwo(b);
    TwoFourIs(a & 3, b >> 4);
    FourTwoIs(a & 15, b >> 6);
    hide TwoFour, FourTwo;
  }

  // The k-th six bits, k < 4, of three bytes.
  function SixBits(a: nat, b: nat, c: nat, k: nat): nat {
    if k == 0 then a / 4 else if k == 1 then a % 4 * 16 + b / 16 else if k == 2 then b % 16 * 4 + c / 64 else c % 64
  }

  lemma SextetNumbers(a: bv8, b: bv8, c: bv8)
    ensures var t, x, y, z := Triple(a, b, c), Value(a), Value(b), Value(c);
      Value(Sextet0(t)) == SixBits(x, y, z, 0) && Value(Sextet1(t)) == SixBits(x, y, z, 1) &&
      Value(Sextet2(t)) == SixBits(x, y, z, 2) && Value(Sextet3(t)) == SixBits(x, y, z, 3)
  {
    hide Triple, Sextet0, Sextet1, Sextet2, Sextet3;
    Sextets(a, b, c);
    TopSix(a);
    MiddleSix(a, b);
    MiddleSix(b, c);
    LowSix(c);
  }

  lemma SymbolNumber(url: bool, s: bv8)
    requires s < 64
    ensures Value(Symbol(url, s)) == Ascii(url, Value(s))
  {
    SymbolIs(url, s);
    hide Symbol, Ascii;
  }

  lemma QuadNumbers(url: bool, a: bv8, b: bv8, c: bv8, k: nat)
    requires k < 4
    ensures Value(Quad(url, a, b, c)[k]) == Ascii(url, SixBits(Value(a), Value(b), Value(c), k))
  {
    hide Triple, Sextet0, Sextet1, Sextet2, Sextet3, Symbol, Ascii, SixBits, Value;
    var t := Triple(a, b, c);
    SextetNumbers(a, b, c);
    SextetsAreSmall(t);
    SymbolNumber(url, Sextet0(t));
    SymbolNumber(url, Sextet1(t));
    SymbolNumber(url, Sextet2(t));
    SymbolNumber(url, Sextet3(t));
  }

  // The number at a place; bits beyond the end are zero.
  function ValueAt(p: Bytes, i: nat): nat { if i < |p| then Value(p[i]) else 0 }

  // Symbol i of an encoding stands for bits 6 * i to 6 * i + 5 of the bytes, most significant first;
  // from their end on it is '='.
  lemma {:induction false} SymbolAt(url: bool, p: Bytes, i: nat)
    requires i < |Encode(url, p)|
    ensures Value(Encode(url, p)[i]) ==
            if 6 * i >= 8 * |p| then '=' as nat
            else Ascii(url, SixBits(ValueAt(p, i / 4 * 3), ValueAt(p, i / 4 * 3 + 1), ValueAt(p, i / 4 * 3 + 2), i % 4))
  {
    hide Quad, Ascii, SixBits, Value;
    PadIs();
    NoBits();
    if |p| > 3 {
      if i < 4 {
        QuadNumbers(url, p[0], p[1], p[2], i);
      } else {
        SymbolAt(url, p[3..], i - 4);
      }
    } else if i < 4 {
      var b: bv8 := if |p| > 1 then p[1] else 0;
      var c: bv8 := if |p| > 2 then p[2] else 0;
      GroupIs(url, p, p[0], b, c);
      QuadNumbers(url, p[0], b, c, i);
    }
  }

  lemma PadIs() ensures Value(PAD) == '=' as nat {}
  lemma NoBits() ensures Value(0) == 0 {}
}
