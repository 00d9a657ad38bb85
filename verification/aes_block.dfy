/**
 The block cipher of src/crypt/aes.c: the round steps on a state of sixteen bytes, their
 inverses, the two round loops, and the same computed in place (sections 5.1 and 5.3 of FIPS 197).
 */
module AesBlock {

  // A state: byte j of column i is at 4 * i + j, as the source's cast of a buffer has it.
  type Block = s: seq<bv8> | |s| == 16 witness seq(16, _ => 0)

  // The k-th of sixteen bytes.
  function Pick(k: bv8, v0: bv8, v1: bv8, v2: bv8, v3: bv8, v4: bv8, v5: bv8, v6: bv8, v7: bv8,
                v8: bv8, v9: bv8, va: bv8, vb: bv8, vc: bv8, vd: bv8, ve: bv8, vf: bv8): bv8
  {
    if k < 8 then
      if k < 4 then
        if k < 2 then (if k < 1 then v0 else v1) else (if k < 3 then v2 else v3)
      else
        if k < 6 then (if k < 5 then v4 else v5) else (if k < 7 then v6 else v7)
    else
      if k < 12 then
        if k < 10 then (if k < 9 then v8 else v9) else (if k < 11 then va else vb)
      else
        if k < 14 then (if k < 13 then vc else vd) else (if k < 15 then ve else vf)
  }

  // g_sbox, a row for each high nibble.
  function SBox(x: bv8): bv8 {
    var c := x & 0x0f;
    Pick(x >> 4,
      Pick(c, 0x63, 0x7c, 0x77, 0x7b, 0xf2, 0x6b, 0x6f, 0xc5, 0x30, 0x01, 0x67, 0x2b, 0xfe, 0xd7, 0xab, 0x76),
      Pick(c, 0xca, 0x82, 0xc9, 0x7d, 0xfa, 0x59, 0x47, 0xf0, 0xad, 0xd4, 0xa2, 0xaf, 0x9c, 0xa4, 0x72, 0xc0),
      Pick(c, 0xb7, 0xfd, 0x93, 0x26, 0x36, 0x3f, 0xf7, 0xcc, 0x34, 0xa5, 0xe5, 0xf1, 0x71, 0xd8, 0x31, 0x15),
      Pick(c, 0x04, 0xc7, 0x23, 0xc3, 0x18, 0x96, 0x05, 0x9a, 0x07, 0x12, 0x80, 0xe2, 0xeb, 0x27, 0xb2, 0x75),
      Pick(c, 0x09, 0x83, 0x2c, 0x1a, 0x1b, 0x6e, 0x5a, 0xa0, 0x52, 0x3b, 0xd6, 0xb3, 0x29, 0xe3, 0x2f, 0x84),
      Pick(c, 0x53, 0xd1, 0x00, 0xed, 0x20, 0xfc, 0xb1, 0x5b, 0x6a, 0xcb, 0xbe, 0x39, 0x4a, 0x4c, 0x58, 0xcf),
      Pick(c, 0xd0, 0xef, 0xaa, 0xfb, 0x43, 0x4d, 0x33, 0x85, 0x45, 0xf9, 0x02, 0x7f, 0x50, 0x3c, 0x9f, 0xa8),
      Pick(c, 0x51, 0xa3, 0x40, 0x8f, 0x92, 0x9d, 0x38, 0xf5, 0xbc, 0xb6, 0xda, 0x21, 0x10, 0xff, 0xf3, 0xd2),
      Pick(c, 0xcd, 0x0c, 0x13, 0xec, 0x5f, 0x97, 0x44, 0x17, 0xc4, 0xa7, 0x7e, 0x3d, 0x64, 0x5d, 0x19, 0x73),
      Pick(c, 0x60, 0x81, 0x4f, 0xdc, 0x22, 0x2a, 0x90, 0x88, 0x46, 0xee, 0xb8, 0x14, 0xde, 0x5e, 0x0b, 0xdb),
      Pick(c, 0xe0, 0x32, 0x3a, 0x0a, 0x49, 0x06, 0x24, 0x5c, 0xc2, 0xd3, 0xac, 0x62, 0x91, 0x95, 0xe4, 0x79),
      Pick(c, 0xe7, 0xc8, 0x37, 0x6d, 0x8d, 0xd5, 0x4e, 0xa9, 0x6c, 0x56, 0xf4, 0xea, 0x65, 0x7a, 0xae, 0x08),
      Pick(c, 0xba, 0x78, 0x25, 0x2e, 0x1c, 0xa6, 0xb4, 0xc6, 0xe8, 0xdd, 0x74, 0x1f, 0x4b, 0xbd, 0x8b, 0x8a),
      Pick(c, 0x70, 0x3e, 0xb5, 0x66, 0x48, 0x03, 0xf6, 0x0e, 0x61, 0x35, 0x57, 0xb9, 0x86, 0xc1, 0x1d, 0x9e),
      Pick(c, 0xe1, 0xf8, 0x98, 0x11, 0x69, 0xd9, 0x8e, 0x94, 0x9b, 0x1e, 0x87, 0xe9, 0xce, 0x55, 0x28, 0xdf),
      Pick(c, 0x8c, 0xa1, 0x89, 0x0d, 0xbf, 0xe6, 0x42, 0x68, 0x41, 0x99, 0x2d, 0x0f, 0xb0, 0x54, 0xbb, 0x16))
  }

  // g_rsbox, in the same layout.
  function InvSBox(x: bv8): bv8 {
    var c := x & 0x0f;
    Pick(x >> 4,
      Pick(c, 0x52, 0x09, 0x6a, 0xd5, 0x30, 0x36, 0xa5, 0x38, 0xbf, 0x40, 0xa3, 0x9e, 0x81, 0xf3, 0xd7, 0xfb),
      Pick(c, 0x7c, 0xe3, 0x39, 0x82, 0x9b, 0x2f, 0xff, 0x87, 0x34, 0x8e, 0x43, 0x44, 0xc4, 0xde, 0xe9, 0xcb),
      Pick(c, 0x54, 0x7b, 0x94, 0x32, 0xa6, 0xc2, 0x23, 0x3d, 0xee, 0x4c, 0x95, 0x0b, 0x42, 0xfa, 0xc3, 0x4e),
      Pick(c, 0x08, 0x2e, 0xa1, 0x66, 0x28, 0xd9, 0x24, 0xb2, 0x76, 0x5b, 0xa2, 0x49, 0x6d, 0x8b, 0xd1, 0x25),
      Pick(c, 0x72, 0xf8, 0xf6, 0x64, 0x86, 0x68, 0x98, 0x16, 0xd4, 0xa4, 0x5c, 0xcc, 0x5d, 0x65, 0xb6, 0x92),
      Pick(c, 0x6c, 0x70, 0x48, 0x50, 0xfd, 0xed, 0xb9, 0xda, 0x5e, 0x15, 0x46, 0x57, 0xa7, 0x8d, 0x9d, 0x84),
      Pick(c, 0x90, 0xd8, 0xab, 0x00, 0x8c, 0xbc, 0xd3, 0x0a, 0xf7, 0xe4, 0x58, 0x05, 0xb8, 0xb3, 0x45, 0x06),
      Pick(c, 0xd0, 0x2c, 0x1e, 0x8f, 0xca, 0x3f, 0x0f, 0x02, 0xc1, 0xaf, 0xbd, 0x03, 0x01, 0x13, 0x8a, 0x6b),
      Pick(c, 0x3a, 0x91, 0x11, 0x41, 0x4f, 0x67, 0xdc, 0xea, 0x97, 0xf2, 0xcf, 0xce, 0xf0, 0xb4, 0xe6, 0x73),
      Pick(c, 0x96, 0xac, 0x74, 0x22, 0xe7, 0xad, 0x35, 0x85, 0xe2, 0xf9, 0x37, 0xe8, 0x1c, 0x75, 0xdf, 0x6e),
      Pick(c, 0x47, 0xf1, 0x1a, 0x71, 0x1d, 0x29, 0xc5, 0x89, 0x6f, 0xb7, 0x62, 0x0e, 0xaa, 0x18, 0xbe, 0x1b),
      Pick(c, 0xfc, 0x56, 0x3e, 0x4b, 0xc6, 0xd2, 0x79, 0x20, 0x9a, 0xdb, 0xc0, 0xfe, 0x78, 0xcd, 0x5a, 0xf4),
      Pick(c, 0x1f, 0xdd, 0xa8, 0x33, 0x88, 0x07, 0xc7, 0x31, 0xb1, 0x12, 0x10, 0x59, 0x27, 0x80, 0xec, 0x5f),
      Pick(c, 0x60, 0x51, 0x7f, 0xa9, 0x19, 0xb5, 0x4a, 0x0d, 0x2d, 0xe5, 0x7a, 0x9f, 0x93, 0xc9, 0x9c, 0xef),
      Pick(c, 0xa0, 0xe0, 0x3b, 0x4d, 0xae, 0x2a, 0xf5, 0xb0, 0xc8, 0xeb, 0xbb, 0x3c, 0x83, 0x53, 0x99, 0x61),
      Pick(c, 0x17, 0x2b, 0x04, 0x7e, 0xba, 0x77, 0xd6, 0x26, 0xe1, 0x69, 0x14, 0x63, 0x55, 0x21, 0x0c, 0x7d))
  }

  lemma InvSBoxLow(x: bv8)
    requires x < 0x80
    ensures InvSBox(SBox(x)) == x
  {
  }

  lemma InvSBoxHigh(x: bv8)
    requires x >= 0x80
    ensures InvSBox(SBox(x)) == x
  {
  }

  lemma InvSBoxUndoes(x: bv8)
    ensures InvSBox(SBox(x)) == x
  {
    hide SBox, InvSBox;
    if x < 0x80 { InvSBoxLow(x); } else { InvSBoxHigh(x); }
  }

  // ----- GF(2^8) -----

  // The macros work on int: nothing is cut off until the result is stored in a byte.
  function Time(x: bv32): bv32 { (x << 1) ^ (((x >> 7) & 1) * 0x1b) }

  function Multiply(x: bv32, y: bv32): bv32 {
    ((y & 1) * x) ^
    (((y >> 1) & 1) * Time(x)) ^
    (((y >> 2) & 1) * Time(Time(x))) ^
    (((y >> 3) & 1) * Time(Time(Time(x)))) ^
    (((y >> 4) & 1) * Time(Time(Time(Time(x)))))
  }

  function Low(x: bv32): bv8 { (x & 0xff) as bv8 }

  // XAES_Time as MixColumns uses it: stored in a byte at once.
  function Double(x: bv8): bv8 { Low(Time(x as bv32)) }

  // It is the multiplication by x of section 4.2 of FIPS 197.
  lemma DoubleIsXtime(x: bv8)
    ensures Double(x) == if x < 0x80 then x << 1 else (x << 1) ^ 0x1b
  {
  }

  lemma DoubleXor(x: bv8, y: bv8)
    ensures Double(x ^ y) == Double(x) ^ Double(y)
  {
  }

  // ----- columns -----

  // nTmp of XAES_MixColumns, and the value it stores into one byte.
  function Sum(x: bv8, y: bv8, z: bv8, w: bv8): bv8 { x ^ y ^ z ^ w }
  function MixWith(x: bv8, y: bv8, tmp: bv8): bv8 { x ^ (Double(x ^ y) ^ tmp) }

  // The first byte of a mixed column; the others are the same of the rotated column.
  function Mix(a: bv8, b: bv8, c: bv8, d: bv8): bv8 { MixWith(a, b, Sum(a, b, c, d)) }

  // A product of the macro, and the sum of four as it is cut to a byte when stored.
  function Times(x: bv8, y: bv32): bv32 { Multiply(x as bv32, y) }
  function Stored(x: bv32, y: bv32, z: bv32, w: bv32): bv8 { Low(x ^ y ^ z ^ w) }

  function InvMix(a: bv8, b: bv8, c: bv8, d: bv8): bv8 {
    Stored(Times(a, 0x0e), Times(b, 0x0b), Times(c, 0x0d), Times(d, 0x09))
  }

  // Bytes as elements of the field. The wrapper keeps the solver from expanding bits in the
  // proofs below, which use addition and doubling only through their laws.
  datatype Elem = Elem(v: bv8)

  function Add(x: Elem, y: Elem): Elem { Elem(x.v ^ y.v) }
  function Twice(x: Elem): Elem { Elem(Double(x.v)) }

  lemma TwiceAdd(x: Elem, y: Elem)
    ensures Twice(Add(x, y)) == Add(Twice(x), Twice(y))
  {
    DoubleXor(x.v, y.v);
    hide Double;
  }

  function Four(x: Elem): Elem { Twice(Twice(x)) }
  function Eight(x: Elem): Elem { Twice(Four(x)) }

  lemma FourAdd(x: Elem, y: Elem)
    ensures Four(Add(x, y)) == Add(Four(x), Four(y))
  {
    hide Add, Twice;
    TwiceAdd(x, y);
    TwiceAdd(Twice(x), Twice(y));
  }

  lemma EightAdd(x: Elem, y: Elem)
    ensures Eight(Add(x, y)) == Add(Eight(x), Eight(y))
  {
    hide Add, Twice, Four;
    FourAdd(x, y);
    TwiceAdd(Four(x), Four(y));
  }

  // Laws of addition.
  lemma Comm(x: Elem, y: Elem)
    ensures Add(x, y) == Add(y, x)
  {
  }

  lemma Assoc(x: Elem, y: Elem, z: Elem)
    ensures Add(Add(x, y), z) == Add(x, Add(y, z))
  {
  }

  lemma Exchange(x: Elem, y: Elem, z: Elem, w: Elem)
    ensures Add(Add(x, y), Add(z, w)) == Add(Add(x, z), Add(y, w))
  {
  }

  lemma Middle(x: Elem, y: Elem, z: Elem)
    ensures Add(Add(x, y), Add(y, z)) == Add(x, z)
  {
  }

  // What the macro computes for the constants of InvMixColumns, once cut to a byte.
  lemma MultiplyByNine(x: bv8)
    ensures Elem(Low(Times(x, 0x09))) == Add(Eight(Elem(x)), Elem(x))
  {
  }

  lemma MultiplyByEleven(x: bv8)
    ensures Elem(Low(Times(x, 0x0b))) == Add(Eight(Elem(x)), Add(Twice(Elem(x)), Elem(x)))
  {
  }

  lemma MultiplyByThirteen(x: bv8)
    ensures Elem(Low(Times(x, 0x0d))) == Add(Eight(Elem(x)), Add(Four(Elem(x)), Elem(x)))
  {
  }

  lemma MultiplyByFourteen(x: bv8)
    ensures Elem(Low(Times(x, 0x0e))) == Add(Eight(Elem(x)), Add(Four(Elem(x)), Twice(Elem(x))))
  {
  }

  lemma MixAsElem(a: bv8, b: bv8, c: bv8, d: bv8)
    ensures Elem(Mix(a, b, c, d)) == Add(Add(Twice(Elem(a)), Twice(Elem(b))), Add(Elem(b), Add(Elem(c), Elem(d))))
  {
    DoubleXor(a, b);
    hide Double;
  }

  lemma InvMixSplit(a: bv8, b: bv8, c: bv8, d: bv8)
    ensures Elem(InvMix(a, b, c, d)) ==
            Add(Add(Elem(Low(Times(a, 0x0e))), Elem(Low(Times(b, 0x0b)))),
                Add(Elem(Low(Times(c, 0x0d))), Elem(Low(Times(d, 0x09)))))
  {
    hide Times;
  }

  // 14a + 11b + 13c + 9d, grouped by powers of two.
  lemma InvMixAsElem(a: bv8, b: bv8, c: bv8, d: bv8)
    ensures var x, y, z, w := Elem(a), Elem(b), Elem(c), Elem(d);
            Elem(InvMix(a, b, c, d)) ==
            Add(Eight(Add(Add(x, y), Add(z, w))), Add(Four(Add(x, z)), Add(Twice(Add(x, y)), Add(y, Add(z, w)))))
  {
    hide Add, Twice, Four, Eight, Times, Low, InvMix;
    var x, y, z, w := Elem(a), Elem(b), Elem(c), Elem(d);
    InvMixSplit(a, b, c, d);
    MultiplyByFourteen(a);
    MultiplyByEleven(b);
    MultiplyByThirteen(c);
    MultiplyByNine(d);
    Regroup(Eight(x), Eight(y), Eight(z), Eight(w), Four(x), Four(z), Twice(x), Twice(y), y, z, w);
    EightAdd(Add(x, y), Add(z, w));
    EightAdd(x, y);
    EightAdd(z, w);
    FourAdd(x, z);
    TwiceAdd(x, y);
  }

  lemma Regroup(ex: Elem, ey: Elem, ez: Elem, ew: Elem, fx: Elem, fz: Elem, tx: Elem, ty: Elem, y: Elem, z: Elem, w: Elem)
    ensures Add(Add(Add(ex, Add(fx, tx)), Add(ey, Add(ty, y))), Add(Add(ez, Add(fz, z)), Add(ew, w))) ==
            Add(Add(Add(ex, ey), Add(ez, ew)), Add(Add(fx, fz), Add(Add(tx, ty), Add(y, Add(z, w)))))
  {
    hide Add;
    Exchange(ex, Add(fx, tx), ey, Add(ty, y));
    Exchange(ez, Add(fz, z), ew, w);
    Exchange(Add(ex, ey), Add(Add(fx, tx), Add(ty, y)), Add(ez, ew), Add(Add(fz, z), w));
    Assoc(fx, tx, Add(ty, y));
    Assoc(fz, z, w);
    Exchange(fx, Add(tx, Add(ty, y)), fz, Add(z, w));
    Assoc(tx, ty, y);
    Assoc(Add(tx, ty), y, Add(z, w));
  }

  // InvMixColumns undoes MixColumns on a column: the products cancel in pairs.
  lemma InvMixUndoes(a: bv8, b: bv8, c: bv8, d: bv8)
    ensures InvMix(Mix(a, b, c, d), Mix(b, c, d, a), Mix(c, d, a, b), Mix(d, a, b, c)) == a
  {
    hide Add, Twice, Four, Eight, Mix, InvMix;
    MixAsElem(a, b, c, d);
    MixAsElem(b, c, d, a);
    MixAsElem(c, d, a, b);
    MixAsElem(d, a, b, c);
    InvMixAsElem(Mix(a, b, c, d), Mix(b, c, d, a), Mix(c, d, a, b), Mix(d, a, b, c));
    var x, y, z, w := Elem(a), Elem(b), Elem(c), Elem(d);
    var X, Y, Z, W := Twice(x), Twice(y), Twice(z), Twice(w);
    Sums(x, y, z, w, X, Y, Z, W);
    var s := Add(Add(X, Z), Add(Y, W));
    EightOfSum(x, y, z, w);
    FourAdd(s, Add(x, z));
    FourOfPair(x, z);
    TwiceAdd(Add(X, Z), Add(x, y));
    TwiceAdd(x, y);
    Cancel(Four(s), Twice(Add(X, Z)), Add(X, Y), x);
  }

  lemma EightOfSum(x: Elem, y: Elem, z: Elem, w: Elem)
    ensures Eight(Add(Add(x, z), Add(y, w))) == Four(Add(Add(Twice(x), Twice(z)), Add(Twice(y), Twice(w))))
  {
    hide Add, Twice;
    TwiceAdd(Add(x, z), Add(y, w));
    TwiceAdd(x, z);
    TwiceAdd(y, w);
  }

  lemma FourOfPair(x: Elem, z: Elem)
    ensures Four(Add(x, z)) == Twice(Add(Twice(x), Twice(z)))
  {
    hide Add, Twice;
    TwiceAdd(x, z);
  }

  // Sums of three-element tails.
  lemma NextTails(x: Elem, y: Elem, z: Elem, w: Elem)
    ensures Add(Add(y, Add(z, w)), Add(z, Add(w, x))) == Add(x, y)
  {
    hide Add;
    Comm(x, y);
    Assoc(z, w, x);
    Middle(y, Add(z, w), x);
  }

  lemma OppositeTails(x: Elem, y: Elem, z: Elem, w: Elem)
    ensures Add(Add(y, Add(z, w)), Add(w, Add(x, y))) == Add(x, z)
  {
    hide Add;
    Comm(y, Add(z, w));
    Assoc(z, w, y);
    Comm(w, y);
    Comm(w, Add(x, y));
    Assoc(x, y, w);
    Comm(x, Add(y, w));
    Middle(z, Add(y, w), x);
    Comm(x, z);
  }

  lemma TailAndPair(x: Elem, z: Elem, w: Elem)
    ensures Add(Add(z, Add(w, x)), Add(z, w)) == x
  {
  }

  // The four mixed bytes in the sums that InvMix takes of them.
  lemma Sums(x: Elem, y: Elem, z: Elem, w: Elem, X: Elem, Y: Elem, Z: Elem, W: Elem)
    ensures var p := Add(Add(X, Y), Add(y, Add(z, w)));
            var q := Add(Add(Y, Z), Add(z, Add(w, x)));
            var r := Add(Add(Z, W), Add(w, Add(x, y)));
            var s := Add(Add(W, X), Add(x, Add(y, z)));
            Add(Add(p, q), Add(r, s)) == Add(Add(x, z), Add(y, w)) &&
            Add(p, r) == Add(Add(Add(X, Z), Add(Y, W)), Add(x, z)) &&
            Add(p, q) == Add(Add(X, Z), Add(x, y)) && Add(q, Add(r, s)) == Add(Add(X, Y), x)
  {
    hide Add;
    NextTails(x, y, z, w);
    OppositeTails(x, y, z, w);
    NextTails(z, w, x, y);
    TailAndPair(x, z, w);
    // p + q
    Exchange(Add(X, Y), Add(y, Add(z, w)), Add(Y, Z), Add(z, Add(w, x)));
    Middle(X, Y, Z);
    // p + r
    Exchange(Add(X, Y), Add(y, Add(z, w)), Add(Z, W), Add(w, Add(x, y)));
    Exchange(X, Y, Z, W);
    // r + s
    Exchange(Add(Z, W), Add(w, Add(x, y)), Add(W, X), Add(x, Add(y, z)));
    Middle(Z, W, X);
    // p + q + r + s
    Comm(Z, X);
    AddTwice(Add(X, Z), Add(x, y), Add(z, w));
    Exchange(x, y, z, w);
    // q + r + s
    Exchange(Add(Y, Z), Add(z, Add(w, x)), Add(Z, X), Add(z, w));
    Middle(Y, Z, X);
    Comm(Y, X);
  }

  lemma AddTwice(x: Elem, y: Elem, z: Elem)
    ensures Add(Add(x, y), Add(x, z)) == Add(y, z)
  {
  }

  lemma Cancel(f: Elem, t: Elem, s: Elem, x: Elem)
    ensures Add(f, Add(Add(f, t), Add(Add(t, s), Add(s, x)))) == x
  {
  }

  // ----- and MixColumns undoes InvMixColumns -----

  lemma SBoxLow(x: bv8)
    requires x < 0x80
    ensures SBox(InvSBox(x)) == x
  {
  }

  lemma SBoxHigh(x: bv8)
    requires x >= 0x80
    ensures SBox(InvSBox(x)) == x
  {
  }

  lemma SBoxUndoes(x: bv8)
    ensures SBox(InvSBox(x)) == x
  {
    hide SBox, InvSBox;
    if x < 0x80 { SBoxLow(x); } else { SBoxHigh(x); }
  }

  lemma Three(e: Elem, a: Elem, f: Elem, b: Elem, g: Elem, c: Elem)
    ensures Add(Add(e, a), Add(Add(f, b), Add(g, c))) == Add(Add(e, Add(f, g)), Add(a, Add(b, c)))
  {
    hide Add;
    Exchange(f, b, g, c);
    Exchange(e, a, Add(f, g), Add(b, c));
  }

  lemma TwoOfThree(e: Elem, f: Elem)
    ensures Add(e, Add(f, e)) == f
  {
  }

  lemma ThreeTails(x: Elem, y: Elem, z: Elem, w: Elem)
    ensures Add(Add(z, Add(w, x)), Add(Add(w, Add(x, y)), Add(x, Add(y, z)))) == x
  {
  }

  // The doubles of three neighbouring sums add up to that of the fourth.
  lemma TwiceRound(x: Elem, y: Elem, z: Elem, w: Elem)
    ensures Add(Twice(Add(y, z)), Add(Twice(Add(z, w)), Twice(Add(w, x)))) == Twice(Add(x, y))
  {
    hide Add, Twice;
    TwiceAdd(Add(z, w), Add(w, x));
    Middle(z, w, x);
    TwiceAdd(Add(y, z), Add(z, x));
    Middle(y, z, x);
    Comm(x, y);
  }

  // InvMixAsElem with its sums put in the order of the first byte.
  lemma InvMixNext(b: bv8, c: bv8, d: bv8, a: bv8)
    ensures var x, y, z, w := Elem(a), Elem(b), Elem(c), Elem(d);
            Elem(InvMix(b, c, d, a)) ==
            Add(Eight(Add(Add(x, z), Add(y, w))), Add(Four(Add(y, w)), Add(Twice(Add(y, z)), Add(z, Add(w, x)))))
  {
    hide Add, Twice, Four, Eight, InvMix;
    var x, y, z, w := Elem(a), Elem(b), Elem(c), Elem(d);
    InvMixAsElem(b, c, d, a);
    SumOrder(x, y, z, w);
  }

  lemma SumOrder(x: Elem, y: Elem, z: Elem, w: Elem)
    ensures Add(Add(y, z), Add(w, x)) == Add(Add(x, z), Add(y, w))
    ensures Add(Add(y, w), Add(x, z)) == Add(Add(x, z), Add(y, w))
  {
  }

  // Four inverted bytes, with the sums of all four shared.
  lemma InvMixAll(a: bv8, b: bv8, c: bv8, d: bv8)
    ensures var x, y, z, w := Elem(a), Elem(b), Elem(c), Elem(d);
            var e := Eight(Add(Add(x, z), Add(y, w)));
            var f, g := Four(Add(x, z)), Four(Add(y, w));
            Elem(InvMix(a, b, c, d)) == Add(e, Add(f, Add(Twice(Add(x, y)), Add(y, Add(z, w))))) &&
            Elem(InvMix(b, c, d, a)) == Add(e, Add(g, Add(Twice(Add(y, z)), Add(z, Add(w, x))))) &&
            Elem(InvMix(c, d, a, b)) == Add(e, Add(f, Add(Twice(Add(z, w)), Add(w, Add(x, y))))) &&
            Elem(InvMix(d, a, b, c)) == Add(e, Add(g, Add(Twice(Add(w, x)), Add(x, Add(y, z)))))
  {
    hide Add, Twice, Four, Eight, InvMix;
    var x, y, z, w := Elem(a), Elem(b), Elem(c), Elem(d);
    InvMixNext(a, b, c, d);
    InvMixNext(b, c, d, a);
    InvMixNext(c, d, a, b);
    InvMixNext(d, a, b, c);
    Comm(z, x);
    Comm(w, y);
    SumOrder(x, y, z, w);
    Comm(Add(x, z), Add(y, w));
  }

  lemma MixUndoes(a: bv8, b: bv8, c: bv8, d: bv8)
    ensures Mix(InvMix(a, b, c, d), InvMix(b, c, d, a), InvMix(c, d, a, b), InvMix(d, a, b, c)) == a
  {
    hide Add, Twice, Four, Eight, Mix, InvMix;
    var x, y, z, w := Elem(a), Elem(b), Elem(c), Elem(d);
    var e := Eight(Add(Add(x, z), Add(y, w)));
    var f, g, t := Four(Add(x, z)), Four(Add(y, w)), Twice(Add(x, y));
    InvMixAll(a, b, c, d);
    MixAsElem(InvMix(a, b, c, d), InvMix(b, c, d, a), InvMix(c, d, a, b), InvMix(d, a, b, c));
    FirstPair(x, y, z, w);
    LastThree(x, y, z, w);
    TwiceAdd(Elem(InvMix(a, b, c, d)), Elem(InvMix(b, c, d, a)));
    Cancelled(e, f, t, x);
  }

  lemma Cancelled(e: Elem, f: Elem, t: Elem, x: Elem)
    ensures Add(Add(e, Add(f, t)), Add(e, Add(f, Add(t, x)))) == x
  {
    hide Add;
    AddTwice(e, Add(f, t), Add(f, Add(t, x)));
    AddTwice(f, t, Add(t, x));
    TwoOfThreeLast(t, x);
  }

  lemma TwoOfThreeLast(t: Elem, x: Elem)
    ensures Add(t, Add(t, x)) == x
  {
  }

  lemma FirstPair(x: Elem, y: Elem, z: Elem, w: Elem)
    ensures var e := Eight(Add(Add(x, z), Add(y, w)));
            var f, g := Four(Add(x, z)), Four(Add(y, w));
            var p := Add(e, Add(f, Add(Twice(Add(x, y)), Add(y, Add(z, w)))));
            var q := Add(e, Add(g, Add(Twice(Add(y, z)), Add(z, Add(w, x)))));
            Twice(Add(p, q)) == Add(e, Add(f, Twice(Add(x, y))))
  {
    hide Add, Twice, Four, Eight;
    var e := Eight(Add(Add(x, z), Add(y, w)));
    var f, g := Four(Add(x, z)), Four(Add(y, w));
    var t, u := Twice(Add(x, y)), Twice(Add(y, z));
    AddTwice(e, Add(f, Add(t, Add(y, Add(z, w)))), Add(g, Add(u, Add(z, Add(w, x)))));
    Exchange(f, Add(t, Add(y, Add(z, w))), g, Add(u, Add(z, Add(w, x))));
    Exchange(t, Add(y, Add(z, w)), u, Add(z, Add(w, x)));
    NextTails(x, y, z, w);
    TwiceAdd(Add(f, g), Add(Add(t, u), Add(x, y)));
    FourAdd(Add(x, z), Add(y, w));
    TwiceIsEight(Add(Add(x, z), Add(y, w)));
    TwiceAdd(Add(t, u), Add(x, y));
    TwiceAdd(Add(x, y), Add(y, z));
    Middle(x, y, z);
    TwiceIsFour(Add(x, z));
  }

  lemma TwiceIsEight(x: Elem) ensures Twice(Four(x)) == Eight(x) { hide Twice, Four; }
  lemma TwiceIsFour(x: Elem) ensures Twice(Twice(x)) == Four(x) { hide Twice; }

  lemma LastThree(x: Elem, y: Elem, z: Elem, w: Elem)
    ensures var e := Eight(Add(Add(x, z), Add(y, w)));
            var f, g := Four(Add(x, z)), Four(Add(y, w));
            var q := Add(e, Add(g, Add(Twice(Add(y, z)), Add(z, Add(w, x)))));
            var r := Add(e, Add(f, Add(Twice(Add(z, w)), Add(w, Add(x, y)))));
            var s := Add(e, Add(g, Add(Twice(Add(w, x)), Add(x, Add(y, z)))));
            Add(q, Add(r, s)) == Add(e, Add(f, Add(Twice(Add(x, y)), x)))
  {
    hide Add, Twice, Four, Eight;
    var e := Eight(Add(Add(x, z), Add(y, w)));
    var f, g := Four(Add(x, z)), Four(Add(y, w));
    var t, u, v := Twice(Add(y, z)), Twice(Add(z, w)), Twice(Add(w, x));
    var i, j, k := Add(z, Add(w, x)), Add(w, Add(x, y)), Add(x, Add(y, z));
    Three(e, Add(g, Add(t, i)), e, Add(f, Add(u, j)), e, Add(g, Add(v, k)));
    Three(g, Add(t, i), f, Add(u, j), g, Add(v, k));
    Three(t, i, u, j, v, k);
    TwoOfThree(e, e);
    TwoOfThree(g, f);
    TwiceRound(x, y, z, w);
    ThreeTails(x, y, z, w);
  }
}
