/**
 The padded message abc of the examples that are published with FIPS 180-4.
 */
module AbcBlock {
  import opened ShaStream

  const ABC: Bytes := [0x61, 0x62, 0x63]

  // The one block of the padded message.
  predicate IsBlock(b: Chunk) {
    WordAt(b, 0) == 0x61626380 && WordAt(b, 15) == 24 && forall t | 1 <= t < 15 :: WordAt(b, t) == 0
  }

  lemma LengthOfAbc()
    ensures LengthBytes(3) == [0, 0, 0, 0] + [0, 0, 0, 0x18]
  {
    assert ToWord(0) == 0 && ToWord(24) == 24;
    assert WordBytes(0) == [0, 0, 0, 0] && WordBytes(24) == [0, 0, 0, 0x18];
    hide ToWord, WordBytes;
  }

  lemma PaddedBytes(i: nat)
    requires i < 64
    ensures |Padded(ABC)| == 64
    ensures Padded(ABC)[i] == if i < 3 then ABC[i] else if i == 3 then 0x80 else if i == 63 then 0x18 else 0
  {
    hide LengthBytes;
    LengthOfAbc();
  }

  lemma SomeWords()
    ensures Word(0, 0, 0, 0) == 0 && Word(0, 0, 0, 0x18) == 24 && Word(0x61, 0x62, 0x63, 0x80) == 0x61626380
  {
  }

  lemma PaddedBlock()
    ensures |Padded(ABC)| == 64 && IsBlock(Padded(ABC))
  {
    hide Padded, Word;
    SomeWords();
    PaddedBytes(0);
    forall i | 0 <= i < 64
      ensures Padded(ABC)[i] == if i < 3 then ABC[i] else if i == 3 then 0x80 else if i == 63 then 0x18 else 0
    {
      PaddedBytes(i);
    }
  }
}
