/**
 The example that is published with FIPS 180-4 for SHA-1, the message abc, worked out eight words and
 eight steps at a time: the functions of the standard give the digest that it has there.
 */
module Sha1Example {
  import opened ShaStream
  import opened Sha1
  import opened AbcBlock

  type Eight = w: seq<bv32> | |w| == 8 witness seq(8, _ => 0)

  // ----- eight at a time -----

  predicate WordsAre(b: Chunk, t: nat, w: Eight) {
    && W(b, t) == w[0] && W(b, t + 1) == w[1] && W(b, t + 2) == w[2] && W(b, t + 3) == w[3]
    && W(b, t + 4) == w[4] && W(b, t + 5) == w[5] && W(b, t + 6) == w[6] && W(b, t + 7) == w[7]
  }

  // A word of the schedule, from those 3, 8, 14 and 16 places before.
  function Word4(w3: bv32, w8: bv32, w14: bv32, w16: bv32): bv32 { Rol1(Xor4(w3, w8, w14, w16)) }

  // The eight words after sixteen.
  function Next8(v: Eight, w: Eight): Eight {
    var x0, x1, x2 := Word4(w[5], w[0], v[2], v[0]), Word4(w[6], w[1], v[3], v[1]), Word4(w[7], w[2], v[4], v[2]);
    var x3, x4, x5 := Word4(x0, w[3], v[5], v[3]), Word4(x1, w[4], v[6], v[4]), Word4(x2, w[5], v[7], v[5]);
    var x6, x7 := Word4(x3, w[6], w[0], v[6]), Word4(x4, w[7], w[1], v[7]);
    [x0, x1, x2, x3, x4, x5, x6, x7]
  }

  function Steps8(r: Regs, t: nat, w: Eight): Regs {
    Step(Step(Step(Step(Step(Step(Step(Step(r, t, w[0]), t + 1, w[1]), t + 2, w[2]), t + 3, w[3]),
      t + 4, w[4]), t + 5, w[5]), t + 6, w[6]), t + 7, w[7])
  }

  lemma WNext(b: Chunk, t: nat)
    requires t >= 16
    ensures W(b, t) == Word4(W(b, t - 3), W(b, t - 8), W(b, t - 14), W(b, t - 16))
  {
  }

  lemma WordsNext(b: Chunk, t: nat, v: Eight, w: Eight)
    requires WordsAre(b, t, v) && WordsAre(b, t + 8, w)
    ensures WordsAre(b, t + 16, Next8(v, w))
  {
    hide W, Word4;
    WNext(b, t + 16);
    WNext(b, t + 17);
    WNext(b, t + 18);
    WNext(b, t + 19);
    WNext(b, t + 20);
    WNext(b, t + 21);
    WNext(b, t + 22);
    WNext(b, t + 23);
  }

  lemma StepsNext(b: Chunk, t: nat)
    ensures Steps(Start(), b, t + 1) == Step(Steps(Start(), b, t), t, W(b, t))
  {
  }

  lemma StepsMore(b: Chunk, t: nat, r: Regs, w: Eight)
    requires Steps(Start(), b, t) == r && WordsAre(b, t, w)
    ensures Steps(Start(), b, t + 8) == Steps8(r, t, w)
  {
    hide W, Step, Steps;
    StepsNext(b, t);
    StepsNext(b, t + 1);
    StepsNext(b, t + 2);
    StepsNext(b, t + 3);
    StepsNext(b, t + 4);
    StepsNext(b, t + 5);
    StepsNext(b, t + 6);
    StepsNext(b, t + 7);
  }

  // ----- the words and the working variables of the example -----

  // The schedule of the example.
  function Schedule(i: nat): Eight {
    match i
    case 0 => [0x61626380, 0x00000000, 0x00000000, 0x00000000, 0x00000000, 0x00000000, 0x00000000, 0x00000000]
    case 1 => [0x00000000, 0x00000000, 0x00000000, 0x00000000, 0x00000000, 0x00000000, 0x00000000, 0x00000018]
    case 2 => [0xC2C4C700, 0x00000000, 0x00000030, 0x85898E01, 0x00000000, 0x00000060, 0x0B131C03, 0x00000030]
    case 3 => [0x85898EC1, 0x16263806, 0x00000000, 0x00000180, 0x2C4C700C, 0x000000F0, 0x93AFB507, 0x5898E048]
    case 4 => [0x8E9A9202, 0x00000600, 0xB131C0F0, 0x16263BC6, 0x4EBED41E, 0x626380A1, 0x16263806, 0x000018C0]
    case 5 => [0xD2E138C4, 0x00000F00, 0x3AFB5079, 0x898E04E5, 0xE2BA3C2B, 0x000060C0, 0x053A37CD, 0x74458547]
    case 6 => [0xDA9415ED, 0x26380A16, 0x626383A1, 0x4EBF54DE, 0x3835B44B, 0x0000F600, 0x1E84C7A3, 0x98E04D98]
    case 7 => [0x651D16A0, 0x62658CA1, 0x458544D6, 0x44584CB7, 0x7BA06619, 0x6380AEA2, 0x0AE55269, 0x627B49A1]
    case 8 => [0x7CD45C9D, 0x000F0000, 0xFB50753A, 0xEC6765E8, 0xBA3C2BE2, 0x0060C000, 0x3A37CD05, 0x458546F4]
    case _ => [0xB8599DD6, 0x380A1A26, 0x01E02203, 0xE7CC3456, 0xE6E60B69, 0x00F60A00, 0x5795EF4F, 0x822E0879]
  }

  // Its working variables after every eight steps.
  function Variables(i: nat): Regs {
    match i
    case 0 => Regs(0x67452301, 0xEFCDAB89, 0x98BADCFE, 0x10325476, 0xC3D2E1F0)
    case 1 => Regs(0x9E8C07D4, 0x993E30C1, 0x0FF1F290, 0xB3F52677, 0xF3763846)
    case 2 => Regs(0x20BDD62F, 0x196BEE77, 0x644A3DA5, 0x1181ED99, 0x18C623F9)
    case 3 => Regs(0xD541F12D, 0x21283486, 0x0CE88EFF, 0x868DEC32, 0x7F67875F)
    case 4 => Regs(0x3B845D33, 0x1267B407, 0x717EEBD7, 0xA0DC2D4B, 0xD2AA1365)
    case 5 => Regs(0x32DE1CBA, 0x4C986405, 0xF718E5CF, 0x03D447F6, 0xF72EEC32)
    case 6 => Regs(0xBEAD02CA, 0xA01B846C, 0x8714787C, 0x503CA382, 0xFB86C6AB)
    case 7 => Regs(0x5E6456AF, 0x7B71F76D, 0x09FA7C76, 0x792410DB, 0x8E11EB59)
    case 8 => Regs(0x6B61C9E1, 0xB66C020B, 0x9523272C, 0xF5D5B051, 0x8FD4B796)
    case 9 => Regs(0x39859DE7, 0xC199F8C7, 0x8FC96230, 0x125C24F0, 0xDE37534A)
    case _ => Regs(0x42541B35, 0x5738D5E1, 0x21834873, 0x681E6DF6, 0xD8FDF6AD)
  }

  lemma Schedule2() ensures Next8(Schedule(0), Schedule(1)) == Schedule(2) {}
  lemma Schedule3() ensures Next8(Schedule(1), Schedule(2)) == Schedule(3) {}
  lemma Schedule4() ensures Next8(Schedule(2), Schedule(3)) == Schedule(4) {}
  lemma Schedule5() ensures Next8(Schedule(3), Schedule(4)) == Schedule(5) {}
  lemma Schedule6() ensures Next8(Schedule(4), Schedule(5)) == Schedule(6) {}
  lemma Schedule7() ensures Next8(Schedule(5), Schedule(6)) == Schedule(7) {}
  lemma Schedule8() ensures Next8(Schedule(6), Schedule(7)) == Schedule(8) {}
  lemma Schedule9() ensures Next8(Schedule(7), Schedule(8)) == Schedule(9) {}

  lemma Variables1() ensures Steps8(Variables(0), 0, Schedule(0)) == Variables(1) {}
  lemma Variables2() ensures Steps8(Variables(1), 8, Schedule(1)) == Variables(2) {}
  lemma Variables3() ensures Steps8(Variables(2), 16, Schedule(2)) == Variables(3) {}
  lemma Variables4() ensures Steps8(Variables(3), 24, Schedule(3)) == Variables(4) {}
  lemma Variables5() ensures Steps8(Variables(4), 32, Schedule(4)) == Variables(5) {}
  lemma Variables6() ensures Steps8(Variables(5), 40, Schedule(5)) == Variables(6) {}
  lemma Variables7() ensures Steps8(Variables(6), 48, Schedule(6)) == Variables(7) {}
  lemma Variables8() ensures Steps8(Variables(7), 56, Schedule(7)) == Variables(8) {}
  lemma Variables9() ensures Steps8(Variables(8), 64, Schedule(8)) == Variables(9) {}
  lemma Variables10() ensures Steps8(Variables(9), 72, Schedule(9)) == Variables(10) {}

  lemma BlockWords(b: Chunk)
    requires IsBlock(b)
    ensures WordsAre(b, 0, Schedule(0)) && WordsAre(b, 8, Schedule(1))
  {
    hide WordAt;
  }

  lemma StepsNone(b: Chunk)
    ensures Steps(Start(), b, 0) == Variables(0)
  {
  }

  lemma AllWords(b: Chunk)
    requires IsBlock(b)
    ensures WordsAre(b, 0, Schedule(0)) && WordsAre(b, 8, Schedule(1)) && WordsAre(b, 16, Schedule(2)) && WordsAre(b, 24, Schedule(3))
    ensures WordsAre(b, 32, Schedule(4)) && WordsAre(b, 40, Schedule(5)) && WordsAre(b, 48, Schedule(6)) && WordsAre(b, 56, Schedule(7))
    ensures WordsAre(b, 64, Schedule(8)) && WordsAre(b, 72, Schedule(9))
  {
    hide IsBlock, WordsAre, Next8, Schedule;
    BlockWords(b);
    WordsNext(b, 0, Schedule(0), Schedule(1));
    Schedule2();
    WordsNext(b, 8, Schedule(1), Schedule(2));
    Schedule3();
    WordsNext(b, 16, Schedule(2), Schedule(3));
    Schedule4();
    WordsNext(b, 24, Schedule(3), Schedule(4));
    Schedule5();
    WordsNext(b, 32, Schedule(4), Schedule(5));
    Schedule6();
    WordsNext(b, 40, Schedule(5), Schedule(6));
    Schedule7();
    WordsNext(b, 48, Schedule(6), Schedule(7));
    Schedule8();
    WordsNext(b, 56, Schedule(7), Schedule(8));
    Schedule9();
  }

  lemma AllSteps(b: Chunk)
    requires IsBlock(b)
    ensures Steps(Start(), b, 80) == Variables(10)
  {
    hide IsBlock, WordsAre, Steps, Steps8, Schedule, Variables;
    AllWords(b);
    StepsNone(b);
    StepsMore(b, 0, Variables(0), Schedule(0));
    Variables1();
    StepsMore(b, 8, Variables(1), Schedule(1));
    Variables2();
    StepsMore(b, 16, Variables(2), Schedule(2));
    Variables3();
    StepsMore(b, 24, Variables(3), Schedule(3));
    Variables4();
    StepsMore(b, 32, Variables(4), Schedule(4));
    Variables5();
    StepsMore(b, 40, Variables(5), Schedule(5));
    Variables6();
    StepsMore(b, 48, Variables(6), Schedule(6));
    Variables7();
    StepsMore(b, 56, Variables(7), Schedule(7));
    Variables8();
    StepsMore(b, 64, Variables(8), Schedule(8));
    Variables9();
    StepsMore(b, 72, Variables(9), Schedule(9));
    Variables10();
  }

  // ----- the digest -----

  lemma Total()
    ensures Added(Start(), Variables(10)) == Regs(0xA9993E36, 0x4706816A, 0xBA3E2571, 0x7850C26C, 0x9CD0D89D)
  {
  }

  lemma HashOfAbc()
    ensures Hash(ABC) == Regs(0xA9993E36, 0x4706816A, 0xBA3E2571, 0x7850C26C, 0x9CD0D89D)
  {
    PaddedBlock();
    var b: Chunk := Padded(ABC);
    FoldOne(Compress, Start(), b);
    AllSteps(b);
    Total();
    hide IsBlock, Steps, Added, Padded, Variables;
  }

  lemma DigestWords()
    ensures WordBytes(0xA9993E36) == [0xA9, 0x99, 0x3E, 0x36]
    ensures WordBytes(0x4706816A) == [0x47, 0x06, 0x81, 0x6A]
    ensures WordBytes(0xBA3E2571) == [0xBA, 0x3E, 0x25, 0x71]
    ensures WordBytes(0x7850C26C) == [0x78, 0x50, 0xC2, 0x6C]
    ensures WordBytes(0x9CD0D89D) == [0x9C, 0xD0, 0xD8, 0x9D]
  {
  }

  // The digest of abc.
  lemma DigestOfAbc()
    ensures Digest([0x61, 0x62, 0x63]) == [0xA9, 0x99, 0x3E, 0x36] + [0x47, 0x06, 0x81, 0x6A] + [0xBA, 0x3E, 0x25, 0x71] + [0x78, 0x50, 0xC2, 0x6C] + [0x9C, 0xD0, 0xD8, 0x9D]
  {
    hide Hash, WordBytes;
    HashOfAbc();
    DigestWords();
  }
}
