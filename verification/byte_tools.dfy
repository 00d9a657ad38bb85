// What the byte-oriented components share: bytes as numbers below 256 and back, exclusive or,
// copying.
module ByteTools {
  // The byte of a number.
  function Byte(n: nat): bv8
    requires n < 256
  {
    if n == 0 then 0 else Up(Byte(n - 1))
  }

  function Value(x: bv8): (n: nat)
    ensures n < 256
  {
    x as nat
  }

  function Up(x: bv8): bv8 { x + 1 }

  lemma PlusOne(x: bv8)
    ensures Value(Up(x)) == if Value(x) == 255 then 0 else Value(x) + 1
    ensures Up(x) == 0 <==> Value(x) == 255
    ensures x == 0 <==> Value(x) == 0
  {
  }

  // Byte is the inverse of the conversion back.
  lemma {:induction false} ByteIs(n: nat, x: bv8)
    requires n < 256
    ensures x == Byte(n) <==> Value(x) == n
  {
    PlusOne(x - 1);
    if n == 0 { PlusOne(x); } else { ByteIs(n - 1, x - 1); assert x == Up(x - 1); }
  }

  // The number that bytes stand for, most significant first.
  function Number(b: seq<bv8>): nat {
    if b == [] then 0 else Number(b[..|b| - 1]) * 256 + b[|b| - 1] as nat
  }

  lemma NumberNext(b: seq<bv8>)
    requires b != []
    ensures Number(b) == Number(b[..|b| - 1]) * 256 + Value(b[|b| - 1])
  {
  }

  lemma TwoBytes(b: seq<bv8>)
    requires |b| == 2
    ensures Number(b) == Value(b[0]) * 256 + Value(b[1])
  {
    hide Number, Value;
    NumberNext(b);
    NumberNext(b[..1]);
    NoBytes(b[..1][..0]);
  }

  lemma NoBytes(b: seq<bv8>)
    requires b == []
    ensures Number(b) == 0
  {
  }

  lemma FourBytes(b: seq<bv8>)
    requires |b| == 4
    ensures Number(b) == Value(b[0]) * 0x100_0000 + Value(b[1]) * 0x1_0000 + Value(b[2]) * 0x100 + Value(b[3])
  {
    hide Number, Value;
    TwoBytes(b[..2]);
    NumberNext(b);
    NumberNext(b[..3]);
    assert b[..3][..2] == b[..2];
  }

  // ----- powers of 256 -----

  function Power(k: nat): (r: nat)
    ensures r > 0
  {
    if k == 0 then 1 else 256 * Power(k - 1)
  }

  lemma PowerNext(k: nat)
    ensures Power(k) == if k == 0 then 1 else 256 * Power(k - 1)
  {
  }

  lemma {:induction false} NumberAppend(a: seq<bv8>, b: seq<bv8>)
    ensures Number(a + b) == Number(a) * Power(|b|) + Number(b)
    decreases |b|
  {
    hide *;
    PowerNext(|b|);
    if b == [] {
      NoBytes(b);
      assert a + b == a;
    } else {
      var front := b[..|b| - 1];
      NumberAppend(a, front);
      NumberNext(b);
      NumberNext(a + b);
      assert (a + b)[..|a + b| - 1] == a + front;
      assert Number(a) * (256 * Power(|front|)) == 256 * (Number(a) * Power(|front|));
    }
  }

  lemma NumberOfHalves(b: seq<bv8>)
    requires |b| == 8
    ensures Number(b) == Number(b[..4]) * 0x1_0000_0000 + Number(b[4..])
  {
    hide Number;
    NumberAppend(b[..4], b[4..]);
    assert b == b[..4] + b[4..];
    assert Power(2) == 0x1_0000;
  }

  lemma EightBytes(b: seq<bv8>)
    requires |b| == 8
    ensures Number(b) ==
            Value(b[0]) * 0x100_0000_0000_0000 + Value(b[1]) * 0x1_0000_0000_0000 + Value(b[2]) * 0x100_0000_0000 +
            Value(b[3]) * 0x1_0000_0000 + Value(b[4]) * 0x100_0000 + Value(b[5]) * 0x1_0000 + Value(b[6]) * 0x100 + Value(b[7])
  {
    hide Number, Value;
    NumberOfHalves(b);
    FourBytes(b[..4]);
    FourBytes(b[4..]);
  }

  lemma {:induction false} FirstByte(b: seq<bv8>)
    requires b != []
    ensures Value(b[0]) * Power(|b| - 1) <= Number(b) < Value(b[0]) * Power(|b| - 1) + Power(|b| - 1)
  {
    hide *;
    NumberNext(b);
    if |b| == 1 {
      NoBytes(b[..0]);
    } else {
      var most := b[..|b| - 1];
      FirstByte(most);
      assert most[0] == b[0];
      PowerNext(|b| - 1);
      Scaled(Value(b[0]), Power(|b| - 2), Number(most), Value(b[|b| - 1]));
    }
    PowerNext(0);
  }

  lemma Scaled(v: nat, p: nat, n: nat, last: nat)
    requires v * p <= n < v * p + p && last < 256
    ensures v * (256 * p) <= n * 256 + last < v * (256 * p) + 256 * p
  {
    assert v * (256 * p) == 256 * (v * p);
  }

  lemma Powers()
    ensures Power(2) == 0x1_0000 && Power(7) == 0x100_0000_0000_0000 && Power(8) == 0x1_0000_0000_0000_0000
  {
    assert Power(4) == 0x1_0000_0000;
  }

  lemma XorTwice(x: bv8, y: bv8)
    ensures (x ^ y) ^ y == x
  {
  }

  // memcpy
  method Copy(dst: array<bv8>, at: nat, src: seq<bv8>)
    requires at + |src| <= dst.Length
    modifies dst
    ensures dst[..] == old(dst[..at]) + src + old(dst[at + |src|..])
  {
    for i := 0 to |src|
      invariant forall k | 0 <= k < dst.Length :: dst[k] == if at <= k < at + i then src[k - at] else old(dst[k])
    {
      dst[at + i] := src[i];
    }
  }
}
