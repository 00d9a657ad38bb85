/**
 The field of section 4 of FIPS 197: multiplication of bytes modulo x^8 + x^4 + x^3 + x + 1, the
 inverse, and that the table of src/crypt/aes.c is the S-box of section 5.1.1.
 */
module AesField {
  import opened AesBlock

  // ----- multiplication -----

  function Plus(x: bv8, y: bv8): bv8 { x ^ y }
  function Xtime(x: bv8): bv8 { if x & 0x80 == 0 then x << 1 else (x << 1) ^ 0x1b }
  function Odd(x: bv8): bool { x & 1 == 1 }
  function Half(x: bv8): bv8 { x >> 1 }

  // The sum of y times the powers of x that the first n bits of b stand for.
  function Product(b: bv8, y: bv8, n: nat): bv8
    decreases n
  {
    if n == 0 then 0 else Plus(if Odd(b) then y else 0, Product(Half(b), Xtime(y), n - 1))
  }

  function Mul(b: bv8, y: bv8): bv8 { Product(b, y, 8) }

  lemma XtimeIsDouble(x: bv8)
    ensures Xtime(x) == Double(x)
  {
    DoubleIsXtime(x);
    hide Double;
  }

  lemma XtimePlus(x: bv8, y: bv8)
    ensures Xtime(Plus(x, y)) == Plus(Xtime(x), Xtime(y))
  {
    hide Double, Xtime;
    DoubleXor(x, y);
    XtimeIsDouble(x);
    XtimeIsDouble(y);
    XtimeIsDouble(x ^ y);
  }

  lemma XtimeZero()
    ensures Xtime(0) == 0 && forall x :: Plus(0, x) == x && Plus(x, 0) == x
  {
  }

  lemma PlusIsAdd(x: bv8, y: bv8)
    ensures Elem(Plus(x, y)) == Add(Elem(x), Elem(y))
  {
  }

  lemma PlusExchange(x: bv8, y: bv8, z: bv8, w: bv8)
    ensures Plus(Plus(x, y), Plus(z, w)) == Plus(Plus(x, z), Plus(y, w))
  {
    hide Plus, Add;
    PlusIsAdd(x, y);
    PlusIsAdd(z, w);
    PlusIsAdd(x, z);
    PlusIsAdd(y, w);
    PlusIsAdd(Plus(x, y), Plus(z, w));
    PlusIsAdd(Plus(x, z), Plus(y, w));
    Exchange(Elem(x), Elem(y), Elem(z), Elem(w));
  }

  lemma {:induction false} ProductPlus(b: bv8, x: bv8, y: bv8, n: nat)
    ensures Product(b, Plus(x, y), n) == Plus(Product(b, x, n), Product(b, y, n))
    decreases n
  {
    hide Plus, Xtime, Odd, Half;
    XtimeZero();
    if n > 0 {
      XtimePlus(x, y);
      ProductPlus(Half(b), Xtime(x), Xtime(y), n - 1);
      var u, v := if Odd(b) then x else 0, if Odd(b) then y else 0;
      PlusExchange(u, v, Product(Half(b), Xtime(x), n - 1), Product(Half(b), Xtime(y), n - 1));
    }
  }

  lemma {:induction false} ProductZero(b: bv8, n: nat)
    ensures Product(b, 0, n) == 0
    decreases n
  {
    hide Plus, Xtime, Odd, Half;
    XtimeZero();
    if n > 0 { ProductZero(Half(b), n - 1); }
  }

  lemma {:induction false} ProductXtime(b: bv8, y: bv8, n: nat)
    ensures Product(b, Xtime(y), n) == Xtime(Product(b, y, n))
    decreases n
  {
    hide Plus, Xtime, Odd, Half;
    XtimeZero();
    if n > 0 {
      ProductXtime(Half(b), Xtime(y), n - 1);
      XtimePlus(if Odd(b) then y else 0, Product(Half(b), Xtime(y), n - 1));
    }
  }

  // Two multiplications may change places.
  lemma {:induction false} ProductCommutes(a: bv8, b: bv8, y: bv8, m: nat, n: nat)
    ensures Product(a, Product(b, y, n), m) == Product(b, Product(a, y, m), n)
    decreases n
  {
    hide Plus, Xtime, Odd, Half;
    if n == 0 {
      ProductZero(a, m);
    } else {
      var u, v := if Odd(b) then y else 0, Product(Half(b), Xtime(y), n - 1);
      ProductPlus(a, u, v, m);
      ProductZero(a, m);
      ProductCommutes(a, Half(b), Xtime(y), m, n - 1);
      ProductXtime(a, y, m);
    }
  }

  function Term(b: bv8, y: bv8): bv8 { if Odd(b) then y else 0 }

  function Sum8(t0: bv8, t1: bv8, t2: bv8, t3: bv8, t4: bv8, t5: bv8, t6: bv8, t7: bv8): bv8 {
    t0 ^ (t1 ^ (t2 ^ (t3 ^ (t4 ^ (t5 ^ (t6 ^ t7))))))
  }

  lemma Sum8IsPlus(t0: bv8, t1: bv8, t2: bv8, t3: bv8, t4: bv8, t5: bv8, t6: bv8, t7: bv8)
    ensures Sum8(t0, t1, t2, t3, t4, t5, t6, t7) == Plus(t0, Plus(t1, Plus(t2, Plus(t3, Plus(t4, Plus(t5, Plus(t6, t7)))))))
  {
  }

  // The eight terms of a product, at once.
  function TermSum(b: bv8, y0: bv8, y1: bv8, y2: bv8, y3: bv8, y4: bv8, y5: bv8, y6: bv8, y7: bv8): bv8 {
    (if b & 1 != 0 then y0 else 0) ^ ((if b & 2 != 0 then y1 else 0) ^ ((if b & 4 != 0 then y2 else 0) ^ ((if b & 8 != 0 then y3 else 0) ^
    ((if b & 16 != 0 then y4 else 0) ^ ((if b & 32 != 0 then y5 else 0) ^ ((if b & 64 != 0 then y6 else 0) ^ (if b & 128 != 0 then y7 else 0)))))))
  }

  lemma TermSumIs(b: bv8, y0: bv8, y1: bv8, y2: bv8, y3: bv8, y4: bv8, y5: bv8, y6: bv8, y7: bv8)
    ensures TermSum(b, y0, y1, y2, y3, y4, y5, y6, y7) ==
            Sum8(if b & 1 != 0 then y0 else 0, if b & 2 != 0 then y1 else 0, if b & 4 != 0 then y2 else 0, if b & 8 != 0 then y3 else 0,
                 if b & 16 != 0 then y4 else 0, if b & 32 != 0 then y5 else 0, if b & 64 != 0 then y6 else 0, if b & 128 != 0 then y7 else 0)
  {
  }

  function Terms(b: bv8, y: bv8): bv8 {
    var y1 := Xtime(y);
    var y2 := Xtime(y1);
    var y3 := Xtime(y2);
    var y4 := Xtime(y3);
    var y5 := Xtime(y4);
    var y6 := Xtime(y5);
    var y7 := Xtime(y6);
    TermSum(b, y, y1, y2, y3, y4, y5, y6, y7)
  }

  lemma OddBits(b: bv8)
    ensures Odd(b) <==> b & 1 != 0
    ensures Odd(Half(b)) <==> b & 2 != 0
    ensures Odd(Half(Half(b))) <==> b & 4 != 0
    ensures Odd(Half(Half(Half(b)))) <==> b & 8 != 0
    ensures Odd(Half(Half(Half(Half(b))))) <==> b & 16 != 0
    ensures Odd(Half(Half(Half(Half(Half(b)))))) <==> b & 32 != 0
    ensures Odd(Half(Half(Half(Half(Half(Half(b))))))) <==> b & 64 != 0
    ensures Odd(Half(Half(Half(Half(Half(Half(Half(b)))))))) <==> b & 128 != 0
  {
  }

  lemma ProductNext(b: bv8, y: bv8, n: nat)
    ensures Product(b, y, n) == if n == 0 then 0 else Plus(Term(b, y), Product(Half(b), Xtime(y), n - 1))
  {
  }

  lemma MulTerms(b: bv8, y: bv8)
    ensures Mul(b, y) == Terms(b, y)
  {
    hide Product, Xtime, Half, Odd, Plus, Sum8, TermSum;
    XtimeZero();
    OddBits(b);
    var (b1, y1) := (Half(b), Xtime(y));
    var (b2, y2) := (Half(b1), Xtime(y1));
    var (b3, y3) := (Half(b2), Xtime(y2));
    var (b4, y4) := (Half(b3), Xtime(y3));
    var (b5, y5) := (Half(b4), Xtime(y4));
    var (b6, y6) := (Half(b5), Xtime(y5));
    var (b7, y7) := (Half(b6), Xtime(y6));
    ProductNext(b, y, 8);
    ProductNext(b1, y1, 7);
    ProductNext(b2, y2, 6);
    ProductNext(b3, y3, 5);
    ProductNext(b4, y4, 4);
    ProductNext(b5, y5, 3);
    ProductNext(b6, y6, 2);
    ProductNext(b7, y7, 1);
    ProductNext(Half(b7), Xtime(y7), 0);
    TermSumIs(b, y, y1, y2, y3, y4, y5, y6, y7);
    Sum8IsPlus(Term(b, y), Term(b1, y1), Term(b2, y2), Term(b3, y3), Term(b4, y4), Term(b5, y5), Term(b6, y6), Term(b7, y7));
  }

  lemma MulOne(b: bv8)
    ensures Mul(b, 1) == b
  {
    hide Mul;
    MulTerms(b, 1);
    assert Xtime(1) == 2 && Xtime(2) == 4 && Xtime(4) == 8 && Xtime(8) == 16 && Xtime(16) == 32 && Xtime(32) == 64 && Xtime(64) == 128;
  }

  lemma MulCommutes(x: bv8, y: bv8)
    ensures Mul(x, y) == Mul(y, x)
  {
    hide Product;
    MulOne(x);
    MulOne(y);
    ProductCommutes(x, y, 1, 8, 8);
  }

  lemma MulAssociates(x: bv8, y: bv8, z: bv8)
    ensures Mul(x, Mul(y, z)) == Mul(Mul(x, y), z)
  {
    hide Product;
    MulCommutes(y, z);
    ProductCommutes(x, z, y, 8, 8);
    MulCommutes(z, Mul(x, y));
  }

  lemma InverseUnique(x: bv8, y: bv8, z: bv8)
    requires Mul(x, y) == 1 && Mul(x, z) == 1
    ensures y == z
  {
    hide Mul;
    MulOne(y);
    MulOne(z);
    MulAssociates(y, x, z);
    MulCommutes(x, y);
    MulCommutes(z, 1);
  }

  // ----- the S-box -----

  function Affine(b: bv8): bv8 {
    b ^ b.RotateLeft(1) ^ b.RotateLeft(2) ^ b.RotateLeft(3) ^ b.RotateLeft(4) ^ 0x63
  }

  // Equation 5.1, bit by bit.
  lemma AffineBits(b: bv8)
    ensures Odd(Affine(b)) == !((((Odd(b) != Odd(b >> 4)) != Odd(b >> 5)) != Odd(b >> 6)) != Odd(b >> 7))
    ensures Odd(Affine(b) >> 1) == !((((Odd(b >> 1) != Odd(b >> 5)) != Odd(b >> 6)) != Odd(b >> 7)) != Odd(b))
    ensures Odd(Affine(b) >> 2) == ((((Odd(b >> 2) != Odd(b >> 6)) != Odd(b >> 7)) != Odd(b)) != Odd(b >> 1))
    ensures Odd(Affine(b) >> 3) == ((((Odd(b >> 3) != Odd(b >> 7)) != Odd(b)) != Odd(b >> 1)) != Odd(b >> 2))
    ensures Odd(Affine(b) >> 4) == ((((Odd(b >> 4) != Odd(b)) != Odd(b >> 1)) != Odd(b >> 2)) != Odd(b >> 3))
    ensures Odd(Affine(b) >> 5) == !((((Odd(b >> 5) != Odd(b >> 1)) != Odd(b >> 2)) != Odd(b >> 3)) != Odd(b >> 4))
    ensures Odd(Affine(b) >> 6) == !((((Odd(b >> 6) != Odd(b >> 2)) != Odd(b >> 3)) != Odd(b >> 4)) != Odd(b >> 5))
    ensures Odd(Affine(b) >> 7) == ((((Odd(b >> 7) != Odd(b >> 3)) != Odd(b >> 4)) != Odd(b >> 5)) != Odd(b >> 6))
  {
  }

  // Its inverse.
  function Undone(s: bv8): bv8 {
    var t := s ^ 0x63;
    t.RotateLeft(1) ^ t.RotateLeft(3) ^ t.RotateLeft(6)
  }

  lemma AffineUndone(s: bv8)
    ensures Affine(Undone(s)) == s
  {
  }

  predicate IsInverse(x: bv8, y: bv8) { if x == 0 then y == 0 else Mul(x, y) == 1 }

  predicate Pair(x: bv8, s: bv8) { if x == 0 then Undone(s) == 0 else Terms(x, Undone(s)) == 1 }

  predicate Row(r: bv8, v0: bv8, v1: bv8, v2: bv8, v3: bv8, v4: bv8, v5: bv8, v6: bv8, v7: bv8,
                v8: bv8, v9: bv8, va: bv8, vb: bv8, vc: bv8, vd: bv8, ve: bv8, vf: bv8) {
    && Pair(r | 0, v0) && Pair(r | 1, v1) && Pair(r | 2, v2) && Pair(r | 3, v3)
    && Pair(r | 4, v4) && Pair(r | 5, v5) && Pair(r | 6, v6) && Pair(r | 7, v7)
    && Pair(r | 8, v8) && Pair(r | 9, v9) && Pair(r | 10, va) && Pair(r | 11, vb)
    && Pair(r | 12, vc) && Pair(r | 13, vd) && Pair(r | 14, ve) && Pair(r | 15, vf)
  }

  lemma Row0()
    ensures Row(0x00, 0x63, 0x7c, 0x77, 0x7b, 0xf2, 0x6b, 0x6f, 0xc5, 0x30, 0x01, 0x67, 0x2b, 0xfe, 0xd7, 0xab, 0x76)
  {
  }

  lemma Row1()
    ensures Row(0x10, 0xca, 0x82, 0xc9, 0x7d, 0xfa, 0x59, 0x47, 0xf0, 0xad, 0xd4, 0xa2, 0xaf, 0x9c, 0xa4, 0x72, 0xc0)
  {
  }

  lemma Row2()
    ensures Row(0x20, 0xb7, 0xfd, 0x93, 0x26, 0x36, 0x3f, 0xf7, 0xcc, 0x34, 0xa5, 0xe5, 0xf1, 0x71, 0xd8, 0x31, 0x15)
  {
  }

  lemma Row3()
    ensures Row(0x30, 0x04, 0xc7, 0x23, 0xc3, 0x18, 0x96, 0x05, 0x9a, 0x07, 0x12, 0x80, 0xe2, 0xeb, 0x27, 0xb2, 0x75)
  {
  }

  lemma Row4()
    ensures Row(0x40, 0x09, 0x83, 0x2c, 0x1a, 0x1b, 0x6e, 0x5a, 0xa0, 0x52, 0x3b, 0xd6, 0xb3, 0x29, 0xe3, 0x2f, 0x84)
  {
  }

  lemma Row5()
    ensures Row(0x50, 0x53, 0xd1, 0x00, 0xed, 0x20, 0xfc, 0xb1, 0x5b, 0x6a, 0xcb, 0xbe, 0x39, 0x4a, 0x4c, 0x58, 0xcf)
  {
  }

  lemma Row6()
    ensures Row(0x60, 0xd0, 0xef, 0xaa, 0xfb, 0x43, 0x4d, 0x33, 0x85, 0x45, 0xf9, 0x02, 0x7f, 0x50, 0x3c, 0x9f, 0xa8)
  {
  }

  lemma Row7()
    ensures Row(0x70, 0x51, 0xa3, 0x40, 0x8f, 0x92, 0x9d, 0x38, 0xf5, 0xbc, 0xb6, 0xda, 0x21, 0x10, 0xff, 0xf3, 0xd2)
  {
  }

  lemma Row8()
    ensures Row(0x80, 0xcd, 0x0c, 0x13, 0xec, 0x5f, 0x97, 0x44, 0x17, 0xc4, 0xa7, 0x7e, 0x3d, 0x64, 0x5d, 0x19, 0x73)
  {
  }

  lemma Row9()
    ensures Row(0x90, 0x60, 0x81, 0x4f, 0xdc, 0x22, 0x2a, 0x90, 0x88, 0x46, 0xee, 0xb8, 0x14, 0xde, 0x5e, 0x0b, 0xdb)
  {
  }

  lemma Rowa()
    ensures Row(0xa0, 0xe0, 0x32, 0x3a, 0x0a, 0x49, 0x06, 0x24, 0x5c, 0xc2, 0xd3, 0xac, 0x62, 0x91, 0x95, 0xe4, 0x79)
  {
  }

  lemma Rowb()
    ensures Row(0xb0, 0xe7, 0xc8, 0x37, 0x6d, 0x8d, 0xd5, 0x4e, 0xa9, 0x6c, 0x56, 0xf4, 0xea, 0x65, 0x7a, 0xae, 0x08)
  {
  }

  lemma Rowc()
    ensures Row(0xc0, 0xba, 0x78, 0x25, 0x2e, 0x1c, 0xa6, 0xb4, 0xc6, 0xe8, 0xdd, 0x74, 0x1f, 0x4b, 0xbd, 0x8b, 0x8a)
  {
  }

  lemma Rowd()
    ensures Row(0xd0, 0x70, 0x3e, 0xb5, 0x66, 0x48, 0x03, 0xf6, 0x0e, 0x61, 0x35, 0x57, 0xb9, 0x86, 0xc1, 0x1d, 0x9e)
  {
  }

  lemma Rowe()
    ensures Row(0xe0, 0xe1, 0xf8, 0x98, 0x11, 0x69, 0xd9, 0x8e, 0x94, 0x9b, 0x1e, 0x87, 0xe9, 0xce, 0x55, 0x28, 0xdf)
  {
  }

  lemma Rowf()
    ensures Row(0xf0, 0x8c, 0xa1, 0x89, 0x0d, 0xbf, 0xe6, 0x42, 0x68, 0x41, 0x99, 0x2d, 0x0f, 0xb0, 0x54, 0xbb, 0x16)
  {
  }

  // The entry of a row, whichever it is.
  lemma RowEntry(r: bv8, x: bv8, v0: bv8, v1: bv8, v2: bv8, v3: bv8, v4: bv8, v5: bv8, v6: bv8, v7: bv8, v8: bv8, v9: bv8, va: bv8, vb: bv8, vc: bv8, vd: bv8, ve: bv8, vf: bv8)
    requires Row(r, v0, v1, v2, v3, v4, v5, v6, v7, v8, v9, va, vb, vc, vd, ve, vf)
    requires x & 0xf0 == r
    ensures Pair(x, Pick(x & 0x0f, v0, v1, v2, v3, v4, v5, v6, v7, v8, v9, va, vb, vc, vd, ve, vf))
  {
    hide Pair;
    assert x == r | 0 || x == r | 1 || x == r | 2 || x == r | 3 ||
      x == r | 4 || x == r | 5 || x == r | 6 || x == r | 7 ||
      x == r | 8 || x == r | 9 || x == r | 10 || x == r | 11 ||
      x == r | 12 || x == r | 13 || x == r | 14 || x == r | 15;
  }

  lemma Entry(x: bv8)
    ensures Pair(x, SBox(x))
  {
    hide Row, Pair;
    if x & 0xf0 == 0x00 {
      Row0();
      RowEntry(0x00, x, 0x63, 0x7c, 0x77, 0x7b, 0xf2, 0x6b, 0x6f, 0xc5, 0x30, 0x01, 0x67, 0x2b, 0xfe, 0xd7, 0xab, 0x76);
    } else if x & 0xf0 == 0x10 {
      Row1();
      RowEntry(0x10, x, 0xca, 0x82, 0xc9, 0x7d, 0xfa, 0x59, 0x47, 0xf0, 0xad, 0xd4, 0xa2, 0xaf, 0x9c, 0xa4, 0x72, 0xc0);
    } else if x & 0xf0 == 0x20 {
      Row2();
      RowEntry(0x20, x, 0xb7, 0xfd, 0x93, 0x26, 0x36, 0x3f, 0xf7, 0xcc, 0x34, 0xa5, 0xe5, 0xf1, 0x71, 0xd8, 0x31, 0x15);
    } else if x & 0xf0 == 0x30 {
      Row3();
      RowEntry(0x30, x, 0x04, 0xc7, 0x23, 0xc3, 0x18, 0x96, 0x05, 0x9a, 0x07, 0x12, 0x80, 0xe2, 0xeb, 0x27, 0xb2, 0x75);
    } else if x & 0xf0 == 0x40 {
      Row4();
      RowEntry(0x40, x, 0x09, 0x83, 0x2c, 0x1a, 0x1b, 0x6e, 0x5a, 0xa0, 0x52, 0x3b, 0xd6, 0xb3, 0x29, 0xe3, 0x2f, 0x84);
    } else if x & 0xf0 == 0x50 {
      Row5();
      RowEntry(0x50, x, 0x53, 0xd1, 0x00, 0xed, 0x20, 0xfc, 0xb1, 0x5b, 0x6a, 0xcb, 0xbe, 0x39, 0x4a, 0x4c, 0x58, 0xcf);
    } else if x & 0xf0 == 0x60 {
      Row6();
      RowEntry(0x60, x, 0xd0, 0xef, 0xaa, 0xfb, 0x43, 0x4d, 0x33, 0x85, 0x45, 0xf9, 0x02, 0x7f, 0x50, 0x3c, 0x9f, 0xa8);
    } else if x & 0xf0 == 0x70 {
      Row7();
      RowEntry(0x70, x, 0x51, 0xa3, 0x40, 0x8f, 0x92, 0x9d, 0x38, 0xf5, 0xbc, 0xb6, 0xda, 0x21, 0x10, 0xff, 0xf3, 0xd2);
    } else if x & 0xf0 == 0x80 {
      Row8();
      RowEntry(0x80, x, 0xcd, 0x0c, 0x13, 0xec, 0x5f, 0x97, 0x44, 0x17, 0xc4, 0xa7, 0x7e, 0x3d, 0x64, 0x5d, 0x19, 0x73);
    } else if x & 0xf0 == 0x90 {
      Row9();
      RowEntry(0x90, x, 0x60, 0x81, 0x4f, 0xdc, 0x22, 0x2a, 0x90, 0x88, 0x46, 0xee, 0xb8, 0x14, 0xde, 0x5e, 0x0b, 0xdb);
    } else if x & 0xf0 == 0xa0 {
      Rowa();
      RowEntry(0xa0, x, 0xe0, 0x32, 0x3a, 0x0a, 0x49, 0x06, 0x24, 0x5c, 0xc2, 0xd3, 0xac, 0x62, 0x91, 0x95, 0xe4, 0x79);
    } else if x & 0xf0 == 0xb0 {
      Rowb();
      RowEntry(0xb0, x, 0xe7, 0xc8, 0x37, 0x6d, 0x8d, 0xd5, 0x4e, 0xa9, 0x6c, 0x56, 0xf4, 0xea, 0x65, 0x7a, 0xae, 0x08);
    } else if x & 0xf0 == 0xc0 {
      Rowc();
      RowEntry(0xc0, x, 0xba, 0x78, 0x25, 0x2e, 0x1c, 0xa6, 0xb4, 0xc6, 0xe8, 0xdd, 0x74, 0x1f, 0x4b, 0xbd, 0x8b, 0x8a);
    } else if x & 0xf0 == 0xd0 {
      Rowd();
      RowEntry(0xd0, x, 0x70, 0x3e, 0xb5, 0x66, 0x48, 0x03, 0xf6, 0x0e, 0x61, 0x35, 0x57, 0xb9, 0x86, 0xc1, 0x1d, 0x9e);
    } else if x & 0xf0 == 0xe0 {
      Rowe();
      RowEntry(0xe0, x, 0xe1, 0xf8, 0x98, 0x11, 0x69, 0xd9, 0x8e, 0x94, 0x9b, 0x1e, 0x87, 0xe9, 0xce, 0x55, 0x28, 0xdf);
    } else {
      Rowf();
      RowEntry(0xf0, x, 0x8c, 0xa1, 0x89, 0x0d, 0xbf, 0xe6, 0x42, 0x68, 0x41, 0x99, 0x2d, 0x0f, 0xb0, 0x54, 0xbb, 0x16);
    }
  }

  lemma EntryInverse(x: bv8)
    ensures IsInverse(x, Undone(SBox(x)))
  {
    hide Mul, Terms, SBox, Undone;
    Entry(x);
    MulTerms(x, Undone(SBox(x)));
  }

  lemma InverseIsUnique(x: bv8, y: bv8, z: bv8)
    requires IsInverse(x, y) && IsInverse(x, z)
    ensures y == z
  {
    hide Mul;
    if x != 0 { InverseUnique(x, y, z); }
  }

  // The multiplicative inverse, which every byte but 0 has.
  ghost function InverseOf(x: bv8): (y: bv8)
    ensures if x == 0 then y == 0 else Mul(x, y) == 1
  {
    hide Mul, SBox, Undone;
    EntryInverse(x);
    var y :| IsInverse(x, y);
    y
  }

  // Section 5.1.1: the table has the affine image of the inverse.
  lemma SBoxIs(x: bv8)
    ensures SBox(x) == Affine(InverseOf(x))
  {
    hide Mul, SBox, Undone, Affine, InverseOf;
    EntryInverse(x);
    InverseIsUnique(x, InverseOf(x), Undone(SBox(x)));
    AffineUndone(SBox(x));
  }

  lemma MulTwo(x: bv8)
    ensures Mul(2, x) == Double(x) && Mul(3, x) == Double(x) ^ x
  {
    XtimeIsDouble(x);
    hide Double, Mul;
    MulTerms(2, x);
    MulTerms(3, x);
  }
}
