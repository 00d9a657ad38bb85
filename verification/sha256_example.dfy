/**
 The example that is published with FIPS 180-4 for SHA-256, the message abc, worked out eight words
 and eight steps at a time: the functions of the standard give the digest that it has there.
 */
module Sha256Example {
  import opened ShaStream
  import opened Sha256
  import opened AbcBlock

  // ----- eight at a time -----

  predicate WordsAre(b: Chunk, t: nat, w: Regs) {
    && W(b, t) == w[0] && W(b, t + 1) == w[1] && W(b, t + 2) == w[2] && W(b, t + 3) == w[3]
    && W(b, t + 4) == w[4] && W(b, t + 5) == w[5] && W(b, t + 6) == w[6] && W(b, t + 7) == w[7]
  }

  predicate ConstantsAre(t: nat, k: Regs)
    requires t + 8 <= 64
  {
    && K[t] == k[0] && K[t + 1] == k[1] && K[t + 2] == k[2] && K[t + 3] == k[3]
    && K[t + 4] == k[4] && K[t + 5] == k[5] && K[t + 6] == k[6] && K[t + 7] == k[7]
  }

  // A word of the schedule, from those 2, 7, 15 and 16 places before.
  function Word4(w2: bv32, w7: bv32, w15: bv32, w16: bv32): bv32 { Plus4(SmallSigma1(w2), w7, SmallSigma0(w15), w16) }

  // The eight words after sixteen.
  function Next8(v: Regs, w: Regs): Regs {
    var x0, x1 := Word4(w[6], w[1], v[1], v[0]), Word4(w[7], w[2], v[2], v[1]);
    var x2, x3 := Word4(x0, w[3], v[3], v[2]), Word4(x1, w[4], v[4], v[3]);
    var x4, x5 := Word4(x2, w[5], v[5], v[4]), Word4(x3, w[6], v[6], v[5]);
    var x6, x7 := Word4(x4, w[7], v[7], v[6]), Word4(x5, x0, w[0], v[7]);
    [x0, x1, x2, x3, x4, x5, x6, x7]
  }

  function Steps8(r: Regs, k: Regs, w: Regs): Regs {
    Step(Step(Step(Step(Step(Step(Step(Step(r, k[0], w[0]), k[1], w[1]), k[2], w[2]), k[3], w[3]),
      k[4], w[4]), k[5], w[5]), k[6], w[6]), k[7], w[7])
  }

  lemma WNext(b: Chunk, t: nat)
    requires t >= 16
    ensures W(b, t) == Word4(W(b, t - 2), W(b, t - 7), W(b, t - 15), W(b, t - 16))
  {
  }

  lemma WordsNext(b: Chunk, t: nat, v: Regs, w: Regs)
    requires WordsAre(b, t, v) && WordsAre(b, t + 8, w)
    ensures WordsAre(b, t + 16, Next8(v, w))
  {
    hide W, Word4;
    WNext(b, t + 16);
    WNext(b, t + 17);
    WNext(b, t + 18);
    WNext(b, t + 19);
    WNext(b, t + 20);
    WNext(b, t + 21);
    WNext(b, t + 22);
    WNext(b, t + 23);
  }

  lemma StepsNext(b: Chunk, t: nat)
    requires t < 64
    ensures Steps(START, b, t + 1) == Step(Steps(START, b, t), K[t], W(b, t))
  {
  }

  lemma StepsMore(b: Chunk, t: nat, r: Regs, k: Regs, w: Regs)
    requires t + 8 <= 64 && Steps(START, b, t) == r && ConstantsAre(t, k) && WordsAre(b, t, w)
    ensures Steps(START, b, t + 8) == Steps8(r, k, w)
  {
    hide W, Step, Steps;
    StepsNext(b, t);
    StepsNext(b, t + 1);
    StepsNext(b, t + 2);
    StepsNext(b, t + 3);
    StepsNext(b, t + 4);
    StepsNext(b, t + 5);
    StepsNext(b, t + 6);
    StepsNext(b, t + 7);
  }

  // ----- the words and the working variables of the example -----

  // K, by rows of eight.
  function Constant(i: nat): Regs {
    match i
    case 0 => [0x428A2F98, 0x71374491, 0xB5C0FBCF, 0xE9B5DBA5, 0x3956C25B, 0x59F111F1, 0x923F82A4, 0xAB1C5ED5]
    case 1 => [0xD807AA98, 0x12835B01, 0x243185BE, 0x550C7DC3, 0x72BE5D74, 0x80DEB1FE, 0x9BDC06A7, 0xC19BF174]
    case 2 => [0xE49B69C1, 0xEFBE4786, 0x0FC19DC6, 0x240CA1CC, 0x2DE92C6F, 0x4A7484AA, 0x5CB0A9DC, 0x76F988DA]
    case 3 => [0x983E5152, 0xA831C66D, 0xB00327C8, 0xBF597FC7, 0xC6E00BF3, 0xD5A79147, 0x06CA6351, 0x14292967]
    case 4 => [0x27B70A85, 0x2E1B2138, 0x4D2C6DFC, 0x53380D13, 0x650A7354, 0x766A0ABB, 0x81C2C92E, 0x92722C85]
    case 5 => [0xA2BFE8A1, 0xA81A664B, 0xC24B8B70, 0xC76C51A3, 0xD192E819, 0xD6990624, 0xF40E3585, 0x106AA070]
    case 6 => [0x19A4C116, 0x1E376C08, 0x2748774C, 0x34B0BCB5, 0x391C0CB3, 0x4ED8AA4A, 0x5B9CCA4F, 0x682E6FF3]
    case _ => [0x748F82EE, 0x78A5636F, 0x84C87814, 0x8CC70208, 0x90BEFFFA, 0xA4506CEB, 0xBEF9A3F7, 0xC67178F2]
  }

  // The schedule of the example.
  function Schedule(i: nat): Regs {
    match i
    case 0 => [0x61626380, 0x00000000, 0x00000000, 0x00000000, 0x00000000, 0x00000000, 0x00000000, 0x00000000]
    case 1 => [0x00000000, 0x00000000, 0x00000000, 0x00000000, 0x00000000, 0x00000000, 0x00000000, 0x00000018]
    case 2 => [0x61626380, 0x000F0000, 0x7DA86405, 0x600003C6, 0x3E9D7B78, 0x0183FC00, 0x12DCBFDB, 0xE2E2C38E]
    case 3 => [0xC8215C1A, 0xB73679A2, 0xE5BC3909, 0x32663C5B, 0x9D209D67, 0xEC8726CB, 0x702138A4, 0xD3B7973B]
    case 4 => [0x93F5997F, 0x3B68BA73, 0xAFF4FFC1, 0xF10A5C62, 0x0A8B3996, 0x72AF830A, 0x9409E33E, 0x24641522]
    case 5 => [0x9F47BF94, 0xF0A64F5A, 0x3E246A79, 0x27333BA3, 0x0C4763F2, 0x840ABF27, 0x7A290D5D, 0x065C43DA]
    case 6 => [0xFB3E89CB, 0xCC7617DB, 0xB9E66C34, 0xA9993667, 0x84BADEDD, 0xC21462BC, 0x1487472C, 0xB20F7A99]
    case _ => [0xEF57B9CD, 0xEBE6B238, 0x9FE3095E, 0x78BC8D4B, 0xA43FCF15, 0x668B2FF8, 0xEEABA2CC, 0x12B1EDEB]
  }

  // Its working variables after every eight steps.
  function Variables(i: nat): Regs {
    match i
    case 0 => [0x6A09E667, 0xBB67AE85, 0x3C6EF372, 0xA54FF53A, 0x510E527F, 0x9B05688C, 0x1F83D9AB, 0x5BE0CD19]
    case 1 => [0x85A07B5F, 0xE5030380, 0x2B4209F5, 0x04409A6A, 0x0C657A79, 0x9B27A401, 0x714260AD, 0x43ADA245]
    case 2 => [0xB0FA238E, 0xC0645FDE, 0xD932EB16, 0x87912990, 0x07590DCD, 0x0B92F20C, 0x745A48DE, 0x1E578218]
    case 3 => [0xC5D53D8D, 0xA7A3623F, 0xC2606D6D, 0x9DC68B63, 0xAA47C347, 0x49F5114A, 0xE1257970, 0x8ADA8930]
    case 4 => [0x73B33BF5, 0xEA992A22, 0xA0060B30, 0x363482C9, 0xBA591112, 0x0109AB3A, 0xADE79437, 0x6112A3B7]
    case 5 => [0x79EA687A, 0x6DC57A8A, 0x34DF1604, 0x41A65CB1, 0x1EFBC0A0, 0xF0781BC8, 0xA507A53D, 0x0772A26B]
    case 6 => [0x4172328D, 0xA14C14B0, 0x72AB4B91, 0x26628815, 0xFECF0BC6, 0xD57B94A9, 0xB7755DA1, 0xA80F11F0]
    case 7 => [0x38CC9913, 0x3EC45CDB, 0xF5702FDB, 0x101FD28F, 0x54CB266B, 0xE50E1B4F, 0x9F4787C3, 0x529E7D00]
    case _ => [0x506E3058, 0xD39A2165, 0x04D24D6C, 0xB85E2CE9, 0x5EF50F24, 0xFB121210, 0x948D25B6, 0x961F4894]
  }

  lemma Constant0() ensures ConstantsAre(0, Constant(0)) {}
  lemma Constant1() ensures ConstantsAre(8, Constant(1)) {}
  lemma Constant2() ensures ConstantsAre(16, Constant(2)) {}
  lemma Constant3() ensures ConstantsAre(24, Constant(3)) {}
  lemma Constant4() ensures ConstantsAre(32, Constant(4)) {}
  lemma Constant5() ensures ConstantsAre(40, Constant(5)) {}
  lemma Constant6() ensures ConstantsAre(48, Constant(6)) {}
  lemma Constant7() ensures ConstantsAre(56, Constant(7)) {}

  lemma Schedule2() ensures Next8(Schedule(0), Schedule(1)) == Schedule(2) {}
  lemma Schedule3() ensures Next8(Schedule(1), Schedule(2)) == Schedule(3) {}
  lemma Schedule4() ensures Next8(Schedule(2), Schedule(3)) == Schedule(4) {}
  lemma Schedule5() ensures Next8(Schedule(3), Schedule(4)) == Schedule(5) {}
  lemma Schedule6() ensures Next8(Schedule(4), Schedule(5)) == Schedule(6) {}
  lemma Schedule7() ensures Next8(Schedule(5), Schedule(6)) == Schedule(7) {}

  lemma Variables1() ensures Steps8(Variables(0), Constant(0), Schedule(0)) == Variables(1) {}
  lemma Variables2() ensures Steps8(Variables(1), Constant(1), Schedule(1)) == Variables(2) {}
  lemma Variables3() ensures Steps8(Variables(2), Constant(2), Schedule(2)) == Variables(3) {}
  lemma Variables4() ensures Steps8(Variables(3), Constant(3), Schedule(3)) == Variables(4) {}
  lemma Variables5() ensures Steps8(Variables(4), Constant(4), Schedule(4)) == Variables(5) {}
  lemma Variables6() ensures Steps8(Variables(5), Constant(5), Schedule(5)) == Variables(6) {}
  lemma Variables7() ensures Steps8(Variables(6), Constant(6), Schedule(6)) == Variables(7) {}
  lemma Variables8() ensures Steps8(Variables(7), Constant(7), Schedule(7)) == Variables(8) {}

  lemma BlockWords(b: Chunk)
    requires IsBlock(b)
    ensures WordsAre(b, 0, Schedule(0)) && WordsAre(b, 8, Schedule(1))
  {
    hide WordAt;
  }

  lemma StepsNone(b: Chunk)
    ensures Steps(START, b, 0) == Variables(0)
  {
  }

  lemma AllWords(b: Chunk)
    requires IsBlock(b)
    ensures WordsAre(b, 0, Schedule(0)) && WordsAre(b, 8, Schedule(1)) && WordsAre(b, 16, Schedule(2)) && WordsAre(b, 24, Schedule(3))
    ensures WordsAre(b, 32, Schedule(4)) && WordsAre(b, 40, Schedule(5)) && WordsAre(b, 48, Schedule(6)) && WordsAre(b, 56, Schedule(7))
  {
    hide IsBlock, WordsAre, Next8, Schedule;
    BlockWords(b);
    WordsNext(b, 0, Schedule(0), Schedule(1));
    Schedule2();
    WordsNext(b, 8, Schedule(1), Schedule(2));
    Schedule3();
    WordsNext(b, 16, Schedule(2), Schedule(3));
    Schedule4();
    WordsNext(b, 24, Schedule(3), Schedule(4));
    Schedule5();
    WordsNext(b, 32, Schedule(4), Schedule(5));
    Schedule6();
    WordsNext(b, 40, Schedule(5), Schedule(6));
    Schedule7();
  }

  lemma AllSteps(b: Chunk)
    requires IsBlock(b)
    ensures Steps(START, b, 64) == Variables(8)
  {
    hide IsBlock, WordsAre, ConstantsAre, Steps, Steps8, Schedule, Variables, Constant;
    AllWords(b);
    StepsNone(b);
    Constant0();
    StepsMore(b, 0, Variables(0), Constant(0), Schedule(0));
    Variables1();
    Constant1();
    StepsMore(b, 8, Variables(1), Constant(1), Schedule(1));
    Variables2();
    Constant2();
    StepsMore(b, 16, Variables(2), Constant(2), Schedule(2));
    Variables3();
    Constant3();
    StepsMore(b, 24, Variables(3), Constant(3), Schedule(3));
    Variables4();
    Constant4();
    StepsMore(b, 32, Variables(4), Constant(4), Schedule(4));
    Variables5();
    Constant5();
    StepsMore(b, 40, Variables(5), Constant(5), Schedule(5));
    Variables6();
    Constant6();
    StepsMore(b, 48, Variables(6), Constant(6), Schedule(6));
    Variables7();
    Constant7();
    StepsMore(b, 56, Variables(7), Constant(7), Schedule(7));
    Variables8();
  }

  // ----- the digest -----

  lemma Total()
    ensures Added(START, Variables(8)) == [0xBA7816BF, 0x8F01CFEA, 0x414140DE, 0x5DAE2223, 0xB00361A3, 0x96177A9C, 0xB410FF61, 0xF20015AD]
  {
  }

  lemma HashOfAbc()
    ensures Hash(ABC) == [0xBA7816BF, 0x8F01CFEA, 0x414140DE, 0x5DAE2223, 0xB00361A3, 0x96177A9C, 0xB410FF61, 0xF20015AD]
  {
    PaddedBlock();
    var b: Chunk := Padded(ABC);
    FoldOne(Compress, Start(), b);
    AllSteps(b);
    Total();
    hide IsBlock, Steps, Added, Padded, Variables;
  }

  lemma WrittenOut(h: Regs)
    requires h == [0xBA7816BF, 0x8F01CFEA, 0x414140DE, 0x5DAE2223, 0xB00361A3, 0x96177A9C, 0xB410FF61, 0xF20015AD]
    ensures AllBytes(h) ==
      [0xBA, 0x78, 0x16, 0xBF] + [0x8F, 0x01, 0xCF, 0xEA] +
      [0x41, 0x41, 0x40, 0xDE] + [0x5D, 0xAE, 0x22, 0x23] +
      [0xB0, 0x03, 0x61, 0xA3] + [0x96, 0x17, 0x7A, 0x9C] +
      [0xB4, 0x10, 0xFF, 0x61] + [0xF2, 0x00, 0x15, 0xAD]
  {
    DigestWords();
    hide AllBytes, WordBytes;
    var d := AllBytes(h);
    AllBytesAt(h, 0);
    AllBytesAt(h, 1);
    AllBytesAt(h, 2);
    AllBytesAt(h, 3);
    AllBytesAt(h, 4);
    AllBytesAt(h, 5);
    AllBytesAt(h, 6);
    AllBytesAt(h, 7);
    assert d == d[0..4] + d[4..8] + d[8..12] + d[12..16] + d[16..20] + d[20..24] + d[24..28] + d[28..32];
  }

  lemma DigestWords()
    ensures WordBytes(0xBA7816BF) == [0xBA, 0x78, 0x16, 0xBF]
    ensures WordBytes(0x8F01CFEA) == [0x8F, 0x01, 0xCF, 0xEA]
    ensures WordBytes(0x414140DE) == [0x41, 0x41, 0x40, 0xDE]
    ensures WordBytes(0x5DAE2223) == [0x5D, 0xAE, 0x22, 0x23]
    ensures WordBytes(0xB00361A3) == [0xB0, 0x03, 0x61, 0xA3]
    ensures WordBytes(0x96177A9C) == [0x96, 0x17, 0x7A, 0x9C]
    ensures WordBytes(0xB410FF61) == [0xB4, 0x10, 0xFF, 0x61]
    ensures WordBytes(0xF20015AD) == [0xF2, 0x00, 0x15, 0xAD]
  {
  }

  // The digest of abc.
  lemma DigestOfAbc()
    ensures Digest([0x61, 0x62, 0x63]) ==
      [0xBA, 0x78, 0x16, 0xBF] + [0x8F, 0x01, 0xCF, 0xEA] +
      [0x41, 0x41, 0x40, 0xDE] + [0x5D, 0xAE, 0x22, 0x23] +
      [0xB0, 0x03, 0x61, 0xA3] + [0x96, 0x17, 0x7A, 0x9C] +
      [0xB4, 0x10, 0xFF, 0x61] + [0xF2, 0x00, 0x15, 0xAD]
  {
    hide Hash, AllBytes;
    HashOfAbc();
    WrittenOut(Hash(ABC));
  }
}
