/**
 The rounds of XAES_CipherBlock and XAES_ECB_Decrypt: as functions on states, as they run in
 place on a buffer, and why the second loop undoes the first.
 */
module AesCipher {
  import opened AesBlock
  import opened ByteTools

  // ----- the steps -----

  predicate Keyed(rk: seq<bv8>, nr: nat) { 1 <= nr && 16 * (nr + 1) <= |rk| }

  function AddRoundKey(s: Block, rk: seq<bv8>, round: nat): Block
    requires 16 * (round + 1) <= |rk|
  {
    seq(16, k requires 0 <= k < 16 => s[k] ^ rk[16 * round + k])
  }

  function SubBytes(s: Block): Block { seq(16, k requires 0 <= k < 16 => SBox(s[k])) }
  function InvSubBytes(s: Block): Block { seq(16, k requires 0 <= k < 16 => InvSBox(s[k])) }

  // Byte j of each column comes from the column j places on.
  function ShiftRows(s: Block): Block {
    [s[0], s[5], s[10], s[15], s[4], s[9], s[14], s[3], s[8], s[13], s[2], s[7], s[12], s[1], s[6], s[11]]
  }

  function InvShiftRows(s: Block): Block {
    [s[0], s[13], s[10], s[7], s[4], s[1], s[14], s[11], s[8], s[5], s[2], s[15], s[12], s[9], s[6], s[3]]
  }

  type Column = q: seq<bv8> | |q| == 4 witness seq(4, _ => 0)

  function MixColumn(q: Column): Column {
    [Mix(q[0], q[1], q[2], q[3]), Mix(q[1], q[2], q[3], q[0]), Mix(q[2], q[3], q[0], q[1]), Mix(q[3], q[0], q[1], q[2])]
  }

  function InvMixColumn(q: Column): Column {
    [InvMix(q[0], q[1], q[2], q[3]), InvMix(q[1], q[2], q[3], q[0]),
     InvMix(q[2], q[3], q[0], q[1]), InvMix(q[3], q[0], q[1], q[2])]
  }

  function MixColumns(s: Block): Block {
    MixColumn(s[0..4]) + MixColumn(s[4..8]) + MixColumn(s[8..12]) + MixColumn(s[12..16])
  }

  function InvMixColumns(s: Block): Block {
    InvMixColumn(s[0..4]) + InvMixColumn(s[4..8]) + InvMixColumn(s[8..12]) + InvMixColumn(s[12..16])
  }

  // ----- each inverse step undoes its step -----

  lemma AddRoundKeyUndoes(s: Block, rk: seq<bv8>, round: nat)
    requires 16 * (round + 1) <= |rk|
    ensures AddRoundKey(AddRoundKey(s, rk, round), rk, round) == s
  {
    var t := AddRoundKey(s, rk, round);
    forall k | 0 <= k < 16 ensures AddRoundKey(t, rk, round)[k] == s[k] {
      XorTwice(s[k], rk[16 * round + k]);
    }
  }

  lemma InvSubBytesUndoes(s: Block)
    ensures InvSubBytes(SubBytes(s)) == s
  {
    hide SBox, InvSBox;
    forall k | 0 <= k < 16 ensures InvSubBytes(SubBytes(s))[k] == s[k] { InvSBoxUndoes(s[k]); }
  }

  lemma InvShiftRowsUndoes(s: Block)
    ensures InvShiftRows(ShiftRows(s)) == s
  {
  }

  lemma InvMixColumnUndoes(q: Column)
    ensures InvMixColumn(MixColumn(q)) == q
  {
    hide Mix, InvMix;
    InvMixUndoes(q[0], q[1], q[2], q[3]);
    InvMixUndoes(q[1], q[2], q[3], q[0]);
    InvMixUndoes(q[2], q[3], q[0], q[1]);
    InvMixUndoes(q[3], q[0], q[1], q[2]);
  }

  lemma InvMixColumnsUndoes(s: Block)
    ensures InvMixColumns(MixColumns(s)) == s
  {
    hide MixColumn, InvMixColumn;
    var t := MixColumns(s);
    assert t[0..4] == MixColumn(s[0..4]) && t[4..8] == MixColumn(s[4..8]);
    assert t[8..12] == MixColumn(s[8..12]) && t[12..16] == MixColumn(s[12..16]);
    InvMixColumnUndoes(s[0..4]);
    InvMixColumnUndoes(s[4..8]);
    InvMixColumnUndoes(s[8..12]);
    InvMixColumnUndoes(s[12..16]);
    assert s == s[0..4] + s[4..8] + s[8..12] + s[12..16];
  }

  // ----- the round loops -----

  // XAES_CipherBlock from the top of round `round`.
  function Rounds(s: Block, rk: seq<bv8>, nr: nat, round: nat): Block
    requires Keyed(rk, nr) && 1 <= round <= nr
    decreases nr - round
  {
    var t := ShiftRows(SubBytes(s));
    if round == nr then AddRoundKey(t, rk, nr)
    else Rounds(AddRoundKey(MixColumns(t), rk, round), rk, nr, round + 1)
  }

  function Encrypt(rk: seq<bv8>, nr: nat, s: Block): Block
    requires Keyed(rk, nr)
  {
    Rounds(AddRoundKey(s, rk, 0), rk, nr, 1)
  }

  // XAES_ECB_Decrypt from the top of round `round`, which counts down.
  function InvRounds(s: Block, rk: seq<bv8>, round: nat): Block
    requires 16 * (round + 1) <= |rk|
    decreases round
  {
    var t := AddRoundKey(InvSubBytes(InvShiftRows(s)), rk, round);
    if round == 0 then t else InvRounds(InvMixColumns(t), rk, round - 1)
  }

  function Decrypt(rk: seq<bv8>, nr: nat, s: Block): Block
    requires Keyed(rk, nr)
  {
    InvRounds(AddRoundKey(s, rk, nr), rk, nr - 1)
  }

  // Undoing the rounds from `round` on leaves what that round's first half had made of `s`.
  lemma {:induction false} InvRoundsUndo(s: Block, rk: seq<bv8>, nr: nat, round: nat)
    requires Keyed(rk, nr) && 1 <= round <= nr
    ensures InvRounds(AddRoundKey(Rounds(s, rk, nr, round), rk, nr), rk, nr - 1) ==
            InvRounds(ShiftRows(SubBytes(s)), rk, round - 1)
    decreases nr - round
  {
    hide AddRoundKey, ShiftRows, SubBytes, MixColumns, InvMixColumns, InvShiftRows, InvSubBytes;
    var t := ShiftRows(SubBytes(s));
    if round == nr {
      AddRoundKeyUndoes(t, rk, nr);
    } else {
      var next := AddRoundKey(MixColumns(t), rk, round);
      InvRoundsUndo(next, rk, nr, round + 1);
      InvShiftRowsUndoes(SubBytes(next));
      InvSubBytesUndoes(next);
      AddRoundKeyUndoes(MixColumns(t), rk, round);
      InvMixColumnsUndoes(t);
    }
  }

  // XAES_ECB_Decrypt undoes XAES_ECB_Crypt: every block, every round-key array, every number of rounds.
  lemma DecryptUndoesEncrypt(rk: seq<bv8>, nr: nat, s: Block)
    requires Keyed(rk, nr)
    ensures Decrypt(rk, nr, Encrypt(rk, nr, s)) == s
  {
    hide AddRoundKey, ShiftRows, SubBytes, MixColumns, InvMixColumns, InvShiftRows, InvSubBytes;
    var first := AddRoundKey(s, rk, 0);
    InvRoundsUndo(first, rk, nr, 1);
    InvShiftRowsUndoes(SubBytes(first));
    InvSubBytesUndoes(first);
    AddRoundKeyUndoes(s, rk, 0);
  }

  // ----- and encryption undoes decryption -----

  lemma SubBytesUndoes(s: Block)
    ensures SubBytes(InvSubBytes(s)) == s
  {
    hide SBox, InvSBox;
    forall k | 0 <= k < 16 ensures SubBytes(InvSubBytes(s))[k] == s[k] { SBoxUndoes(s[k]); }
  }

  lemma ShiftRowsUndoes(s: Block)
    ensures ShiftRows(InvShiftRows(s)) == s
  {
  }

  lemma MixColumnUndoes(q: Column)
    ensures MixColumn(InvMixColumn(q)) == q
  {
    hide Mix, InvMix;
    MixUndoes(q[0], q[1], q[2], q[3]);
    MixUndoes(q[1], q[2], q[3], q[0]);
    MixUndoes(q[2], q[3], q[0], q[1]);
    MixUndoes(q[3], q[0], q[1], q[2]);
  }

  lemma MixColumnsUndoes(s: Block)
    ensures MixColumns(InvMixColumns(s)) == s
  {
    hide MixColumn, InvMixColumn;
    var t := InvMixColumns(s);
    assert t[0..4] == InvMixColumn(s[0..4]) && t[4..8] == InvMixColumn(s[4..8]);
    assert t[8..12] == InvMixColumn(s[8..12]) && t[12..16] == InvMixColumn(s[12..16]);
    MixColumnUndoes(s[0..4]);
    MixColumnUndoes(s[4..8]);
    MixColumnUndoes(s[8..12]);
    MixColumnUndoes(s[12..16]);
    assert s == s[0..4] + s[4..8] + s[8..12] + s[12..16];
  }

  lemma {:induction false} RoundsUndo(s: Block, rk: seq<bv8>, nr: nat, round: nat)
    requires Keyed(rk, nr) && round < nr
    ensures Rounds(AddRoundKey(InvRounds(s, rk, round), rk, 0), rk, nr, 1) ==
            Rounds(InvSubBytes(InvShiftRows(s)), rk, nr, round + 1)
    decreases round
  {
    hide AddRoundKey, ShiftRows, SubBytes, MixColumns, InvMixColumns, InvShiftRows, InvSubBytes;
    var t := AddRoundKey(InvSubBytes(InvShiftRows(s)), rk, round);
    AddRoundKeyUndoes(InvSubBytes(InvShiftRows(s)), rk, round);
    if round > 0 {
      RoundsUndo(InvMixColumns(t), rk, nr, round - 1);
      SubBytesUndoes(InvShiftRows(InvMixColumns(t)));
      ShiftRowsUndoes(InvMixColumns(t));
      MixColumnsUndoes(t);
    }
  }

  lemma EncryptUndoesDecrypt(rk: seq<bv8>, nr: nat, s: Block)
    requires Keyed(rk, nr)
    ensures Encrypt(rk, nr, Decrypt(rk, nr, s)) == s
  {
    hide AddRoundKey, ShiftRows, SubBytes, MixColumns, InvMixColumns, InvShiftRows, InvSubBytes;
    var last := AddRoundKey(s, rk, nr);
    RoundsUndo(last, rk, nr, nr - 1);
    SubBytesUndoes(InvShiftRows(last));
    ShiftRowsUndoes(last);
    AddRoundKeyUndoes(s, rk, nr);
  }

  // ======================= in place =======================

  // The block at `off`, and a buffer that differs only there.
  ghost function BlockAt(buf: seq<bv8>, off: nat): Block
    requires off + 16 <= |buf|
  {
    buf[off..off + 16]
  }

  ghost function Replaced(buf: seq<bv8>, off: nat, b: Block): (r: seq<bv8>)
    requires off + 16 <= |buf|
    ensures |r| == |buf|
  {
    buf[..off] + b + buf[off + 16..]
  }

  lemma ReplacedIs(before: seq<bv8>, after: seq<bv8>, off: nat, b: Block)
    requires off + 16 <= |before| == |after|
    requires forall k | 0 <= k < |before| :: after[k] == if off <= k < off + 16 then b[k - off] else before[k]
    ensures after == Replaced(before, off, b)
  {
  }

  method AddRoundKeyAt(buf: array<bv8>, off: nat, rk: seq<bv8>, round: nat)
    requires off + 16 <= buf.Length && 16 * (round + 1) <= |rk|
    modifies buf
    ensures buf[..] == Replaced(old(buf[..]), off, AddRoundKey(BlockAt(old(buf[..]), off), rk, round))
  {
    ghost var before := buf[..];
    ghost var b := AddRoundKey(BlockAt(before, off), rk, round);
    for i := 0 to 4
      invariant forall k | 0 <= k < buf.Length :: buf[k] == if off <= k < off + 4 * i then b[k - off] else before[k]
    {
      for j := 0 to 4
        invariant forall k | 0 <= k < buf.Length :: buf[k] == if off <= k < off + 4 * i + j then b[k - off] else before[k]
      {
        buf[off + 4 * i + j] := buf[off + 4 * i + j] ^ rk[round * 4 * 4 + i * 4 + j];
      }
    }
    ReplacedIs(before, buf[..], off, b);
  }

  // The source visits the bytes row by row: (*pState)[j][i]. Halfway, those visited are `after`'s.
  predicate Visited(k: int, i: nat, j: nat) { 0 <= k < 16 && (k % 4 < i || (k % 4 == i && k / 4 < j)) }

  ghost function Halfway(before: seq<bv8>, after: seq<bv8>, off: nat, i: nat, j: nat): (r: seq<bv8>)
    requires |before| == |after|
    ensures |r| == |before|
    ensures forall k | 0 <= k < |r| :: r[k] == if Visited(k - off, i, j) then after[k] else before[k]
  {
    seq(|before|, k requires 0 <= k < |before| => if Visited(k - off, i, j) then after[k] else before[k])
  }

  lemma VisitedNext(k: int, i: nat, j: nat)
    requires i < 4 && j < 4
    ensures Visited(k, i, j + 1) <==> Visited(k, i, j) || k == 4 * j + i
    ensures Visited(k, i, 4) <==> Visited(k, i + 1, 0)
    ensures k == 4 * j + i ==> !Visited(k, i, j)
    ensures !Visited(k, 0, 0)
    ensures Visited(k, 4, 0) <==> 0 <= k < 16
  {
  }

  lemma HalfwayNext(before: seq<bv8>, after: seq<bv8>, off: nat, i: nat, j: nat)
    requires off + 16 <= |before| == |after| && i < 4 && j < 4
    ensures Halfway(before, after, off, i, j)[off + (4 * j + i)] == before[off + (4 * j + i)]
    ensures Halfway(before, after, off, i, j)[off + (4 * j + i) := after[off + (4 * j + i)]] == Halfway(before, after, off, i, j + 1)
    ensures Halfway(before, after, off, i, 4) == Halfway(before, after, off, i + 1, 0)
  {
    hide Visited;
    forall k: int { VisitedNext(k, i, j); }
  }

  lemma HalfwayEnds(before: seq<bv8>, off: nat, b: Block)
    requires off + 16 <= |before|
    ensures Halfway(before, Replaced(before, off, b), off, 0, 0) == before
    ensures Halfway(before, Replaced(before, off, b), off, 4, 0) == Replaced(before, off, b)
  {
    hide Visited;
    forall k: int { VisitedNext(k, 0, 0); }
  }

  method SubBytesAt(buf: array<bv8>, off: nat)
    requires off + 16 <= buf.Length
    modifies buf
    ensures buf[..] == Replaced(old(buf[..]), off, SubBytes(BlockAt(old(buf[..]), off)))
  {
    hide SBox, Halfway;
    ghost var before := buf[..];
    ghost var after := Replaced(before, off, SubBytes(BlockAt(before, off)));
    HalfwayEnds(before, off, SubBytes(BlockAt(before, off)));
    for i := 0 to 4
      invariant buf[..] == Halfway(before, after, off, i, 0)
    {
      for j := 0 to 4
        invariant buf[..] == Halfway(before, after, off, i, j)
      {
        HalfwayNext(before, after, off, i, j);
        assert buf[..][off + (4 * j + i)] == before[off + (4 * j + i)];
        assert after[off + (4 * j + i)] == SBox(before[off + (4 * j + i)]);
        ghost var last := buf[..];
        buf[off + (4 * j + i)] := SBox(buf[off + (4 * j + i)]);
        assert buf[..] == last[off + (4 * j + i) := after[off + (4 * j + i)]];
      }
      HalfwayNext(before, after, off, i, 0);
    }
  }

  method InvSubBytesAt(buf: array<bv8>, off: nat)
    requires off + 16 <= buf.Length
    modifies buf
    ensures buf[..] == Replaced(old(buf[..]), off, InvSubBytes(BlockAt(old(buf[..]), off)))
  {
    hide InvSBox, Halfway;
    ghost var before := buf[..];
    ghost var after := Replaced(before, off, InvSubBytes(BlockAt(before, off)));
    HalfwayEnds(before, off, InvSubBytes(BlockAt(before, off)));
    for i := 0 to 4
      invariant buf[..] == Halfway(before, after, off, i, 0)
    {
      for j := 0 to 4
        invariant buf[..] == Halfway(before, after, off, i, j)
      {
        HalfwayNext(before, after, off, i, j);
        assert buf[..][off + (4 * j + i)] == before[off + (4 * j + i)];
        assert after[off + (4 * j + i)] == InvSBox(before[off + (4 * j + i)]);
        ghost var last := buf[..];
        buf[off + (4 * j + i)] := InvSBox(buf[off + (4 * j + i)]);
        assert buf[..] == last[off + (4 * j + i) := after[off + (4 * j + i)]];
      }
      HalfwayNext(before, after, off, i, 0);
    }
  }

  lemma ReplacedFrom(before: seq<bv8>, after: seq<bv8>, off: nat, b: Block)
    requires off + 16 <= |before| == |after|
    requires forall k | 0 <= k < |before| && !(off <= k < off + 16) :: after[k] == before[k]
    requires forall k | 0 <= k < 16 :: after[off + k] == b[k]
    ensures after == Replaced(before, off, b)
  {
    forall k | off <= k < off + 16 ensures after[k] == b[k - off] {
      assert after[off + (k - off)] == b[k - off];
    }
  }

  // The rows move one after the other, each through a temporary.
  ghost function FirstRow(s: seq<bv8>, o: nat): (r: seq<bv8>)
    requires o + 16 <= |s|
    ensures |r| == |s|
    ensures r[o + 1] == s[o + 5] && r[o + 5] == s[o + 9] && r[o + 9] == s[o + 13] && r[o + 13] == s[o + 1]
    ensures forall k | 0 <= k < |s| && k != o + 1 && k != o + 5 && k != o + 9 && k != o + 13 :: r[k] == s[k]
  {
    s[o + 1 := s[o + 5]][o + 5 := s[o + 9]][o + 9 := s[o + 13]][o + 13 := s[o + 1]]
  }

  ghost function SecondRow(s: seq<bv8>, o: nat): (r: seq<bv8>)
    requires o + 16 <= |s|
    ensures |r| == |s|
    ensures r[o + 2] == s[o + 10] && r[o + 6] == s[o + 14] && r[o + 10] == s[o + 2] && r[o + 14] == s[o + 6]
    ensures forall k | 0 <= k < |s| && k != o + 2 && k != o + 6 && k != o + 10 && k != o + 14 :: r[k] == s[k]
  {
    s[o + 2 := s[o + 10]][o + 10 := s[o + 2]][o + 6 := s[o + 14]][o + 14 := s[o + 6]]
  }

  ghost function ThirdRow(s: seq<bv8>, o: nat): (r: seq<bv8>)
    requires o + 16 <= |s|
    ensures |r| == |s|
    ensures r[o + 3] == s[o + 15] && r[o + 7] == s[o + 3] && r[o + 11] == s[o + 7] && r[o + 15] == s[o + 11]
    ensures forall k | 0 <= k < |s| && k != o + 3 && k != o + 7 && k != o + 11 && k != o + 15 :: r[k] == s[k]
  {
    s[o + 3 := s[o + 15]][o + 15 := s[o + 11]][o + 11 := s[o + 7]][o + 7 := s[o + 3]]
  }

  ghost function FirstRowBack(s: seq<bv8>, o: nat): (r: seq<bv8>)
    requires o + 16 <= |s|
    ensures |r| == |s|
    ensures r[o + 1] == s[o + 13] && r[o + 5] == s[o + 1] && r[o + 9] == s[o + 5] && r[o + 13] == s[o + 9]
    ensures forall k | 0 <= k < |s| && k != o + 1 && k != o + 5 && k != o + 9 && k != o + 13 :: r[k] == s[k]
  {
    s[o + 13 := s[o + 9]][o + 9 := s[o + 5]][o + 5 := s[o + 1]][o + 1 := s[o + 13]]
  }

  ghost function ThirdRowBack(s: seq<bv8>, o: nat): (r: seq<bv8>)
    requires o + 16 <= |s|
    ensures |r| == |s|
    ensures r[o + 3] == s[o + 7] && r[o + 7] == s[o + 11] && r[o + 11] == s[o + 15] && r[o + 15] == s[o + 3]
    ensures forall k | 0 <= k < |s| && k != o + 3 && k != o + 7 && k != o + 11 && k != o + 15 :: r[k] == s[k]
  {
    s[o + 3 := s[o + 7]][o + 7 := s[o + 11]][o + 11 := s[o + 15]][o + 15 := s[o + 3]]
  }

  method FirstRowAt(buf: array<bv8>, o: nat)
    requires o + 16 <= buf.Length
    modifies buf
    ensures buf[..] == FirstRow(old(buf[..]), o)
  {
    var temp := buf[o + 1];
    buf[o + 1] := buf[o + 5];
    buf[o + 5] := buf[o + 9];
    buf[o + 9] := buf[o + 13];
    buf[o + 13] := temp;
  }

  method SecondRowAt(buf: array<bv8>, o: nat)
    requires o + 16 <= buf.Length
    modifies buf
    ensures buf[..] == SecondRow(old(buf[..]), o)
  {
    var temp := buf[o + 2];
    buf[o + 2] := buf[o + 10];
    buf[o + 10] := temp;
    temp := buf[o + 6];
    buf[o + 6] := buf[o + 14];
    buf[o + 14] := temp;
  }

  method ThirdRowAt(buf: array<bv8>, o: nat)
    requires o + 16 <= buf.Length
    modifies buf
    ensures buf[..] == ThirdRow(old(buf[..]), o)
  {
    var temp := buf[o + 3];
    buf[o + 3] := buf[o + 15];
    buf[o + 15] := buf[o + 11];
    buf[o + 11] := buf[o + 7];
    buf[o + 7] := temp;
  }

  method FirstRowBackAt(buf: array<bv8>, o: nat)
    requires o + 16 <= buf.Length
    modifies buf
    ensures buf[..] == FirstRowBack(old(buf[..]), o)
  {
    var temp := buf[o + 13];
    buf[o + 13] := buf[o + 9];
    buf[o + 9] := buf[o + 5];
    buf[o + 5] := buf[o + 1];
    buf[o + 1] := temp;
  }

  method ThirdRowBackAt(buf: array<bv8>, o: nat)
    requires o + 16 <= buf.Length
    modifies buf
    ensures buf[..] == ThirdRowBack(old(buf[..]), o)
  {
    var temp := buf[o + 3];
    buf[o + 3] := buf[o + 7];
    buf[o + 7] := buf[o + 11];
    buf[o + 11] := buf[o + 15];
    buf[o + 15] := temp;
  }

  lemma ReplacedBytes(before: seq<bv8>, after: seq<bv8>, o: nat, b: Block)
    requires o + 16 <= |before| == |after|
    requires forall k | 0 <= k < |before| && !(o <= k < o + 16) :: after[k] == before[k]
    requires after[o] == b[0] && after[o + 1] == b[1] && after[o + 2] == b[2] && after[o + 3] == b[3]
    requires after[o + 4] == b[4] && after[o + 5] == b[5] && after[o + 6] == b[6] && after[o + 7] == b[7]
    requires after[o + 8] == b[8] && after[o + 9] == b[9] && after[o + 10] == b[10] && after[o + 11] == b[11]
    requires after[o + 12] == b[12] && after[o + 13] == b[13] && after[o + 14] == b[14] && after[o + 15] == b[15]
    ensures after == Replaced(before, o, b)
  {
    ReplacedFrom(before, after, o, b);
  }

  lemma ShiftRowsBytes(s: seq<bv8>, o: nat)
    requires o + 16 <= |s|
    ensures var b := ShiftRows(BlockAt(s, o));
      && b[0] == s[o + 0] && b[1] == s[o + 5] && b[2] == s[o + 10] && b[3] == s[o + 15]
      && b[4] == s[o + 4] && b[5] == s[o + 9] && b[6] == s[o + 14] && b[7] == s[o + 3]
      && b[8] == s[o + 8] && b[9] == s[o + 13] && b[10] == s[o + 2] && b[11] == s[o + 7]
      && b[12] == s[o + 12] && b[13] == s[o + 1] && b[14] == s[o + 6] && b[15] == s[o + 11]
  {
  }

  lemma RowsShifted(s: seq<bv8>, o: nat)
    requires o + 16 <= |s|
    ensures ThirdRow(SecondRow(FirstRow(s, o), o), o) == Replaced(s, o, ShiftRows(BlockAt(s, o)))
  {
    hide *;
    var one := FirstRow(s, o);
    var two := SecondRow(one, o);
    var r, b := ThirdRow(two, o), ShiftRows(BlockAt(s, o));
    ShiftRowsBytes(s, o);
    assert r[o + 0] == b[0] && r[o + 1] == b[1] && r[o + 2] == b[2] && r[o + 3] == b[3];
    assert r[o + 4] == b[4] && r[o + 5] == b[5] && r[o + 6] == b[6] && r[o + 7] == b[7];
    assert r[o + 8] == b[8] && r[o + 9] == b[9] && r[o + 10] == b[10] && r[o + 11] == b[11];
    assert r[o + 12] == b[12] && r[o + 13] == b[13] && r[o + 14] == b[14] && r[o + 15] == b[15];
    ReplacedBytes(s, r, o, b);
  }

  method ShiftRowsAt(buf: array<bv8>, o: nat)
    requires o + 16 <= buf.Length
    modifies buf
    ensures buf[..] == Replaced(old(buf[..]), o, ShiftRows(BlockAt(old(buf[..]), o)))
  {
    hide Replaced, ShiftRows, FirstRow, SecondRow, ThirdRow;
    ghost var before := buf[..];
    FirstRowAt(buf, o);
    SecondRowAt(buf, o);
    ThirdRowAt(buf, o);
    RowsShifted(before, o);
  }

  lemma InvShiftRowsBytes(s: seq<bv8>, o: nat)
    requires o + 16 <= |s|
    ensures var b := InvShiftRows(BlockAt(s, o));
      && b[0] == s[o + 0] && b[1] == s[o + 13] && b[2] == s[o + 10] && b[3] == s[o + 7]
      && b[4] == s[o + 4] && b[5] == s[o + 1] && b[6] == s[o + 14] && b[7] == s[o + 11]
      && b[8] == s[o + 8] && b[9] == s[o + 5] && b[10] == s[o + 2] && b[11] == s[o + 15]
      && b[12] == s[o + 12] && b[13] == s[o + 9] && b[14] == s[o + 6] && b[15] == s[o + 3]
  {
  }

  lemma RowsShiftedBack(s: seq<bv8>, o: nat)
    requires o + 16 <= |s|
    ensures ThirdRowBack(SecondRow(FirstRowBack(s, o), o), o) == Replaced(s, o, InvShiftRows(BlockAt(s, o)))
  {
    hide *;
    var one := FirstRowBack(s, o);
    var two := SecondRow(one, o);
    var r, b := ThirdRowBack(two, o), InvShiftRows(BlockAt(s, o));
    InvShiftRowsBytes(s, o);
    assert r[o + 0] == b[0] && r[o + 1] == b[1] && r[o + 2] == b[2] && r[o + 3] == b[3];
    assert r[o + 4] == b[4] && r[o + 5] == b[5] && r[o + 6] == b[6] && r[o + 7] == b[7];
    assert r[o + 8] == b[8] && r[o + 9] == b[9] && r[o + 10] == b[10] && r[o + 11] == b[11];
    assert r[o + 12] == b[12] && r[o + 13] == b[13] && r[o + 14] == b[14] && r[o + 15] == b[15];
    ReplacedBytes(s, r, o, b);
  }

  method InvShiftRowsAt(buf: array<bv8>, o: nat)
    requires o + 16 <= buf.Length
    modifies buf
    ensures buf[..] == Replaced(old(buf[..]), o, InvShiftRows(BlockAt(old(buf[..]), o)))
  {
    hide Replaced, InvShiftRows, FirstRowBack, SecondRow, ThirdRowBack;
    ghost var before := buf[..];
    FirstRowBackAt(buf, o);
    SecondRowAt(buf, o);
    ThirdRowBackAt(buf, o);
    RowsShiftedBack(before, o);
  }

  lemma MixBytes(x: bv8, y: bv8, z: bv8, w: bv8)
    ensures MixWith(x, y, Sum(x, y, z, w)) == Mix(x, y, z, w) && MixWith(y, z, Sum(x, y, z, w)) == Mix(y, z, w, x)
    ensures MixWith(z, w, Sum(x, y, z, w)) == Mix(z, w, x, y) && MixWith(w, x, Sum(x, y, z, w)) == Mix(w, x, y, z)
  {
    hide MixWith;
    SumRotates(x, y, z, w);
    SumRotates(y, z, w, x);
    SumRotates(z, w, x, y);
    hide Sum;
  }

  lemma SumRotates(x: bv8, y: bv8, z: bv8, w: bv8)
    ensures Sum(x, y, z, w) == Sum(y, z, w, x)
  {
  }

  // One column of XAES_MixColumns, with the source's temporaries.
  method MixColumnAt(buf: array<bv8>, c: nat)
    requires c + 4 <= buf.Length
    modifies buf
    ensures forall k | 0 <= k < buf.Length && !(c <= k < c + 4) :: buf[k] == old(buf[k])
    ensures buf[c..c + 4] == MixColumn(old(buf[c..c + 4]))
  {
    hide MixWith, Sum, Mix;
    var t := buf[c];
    var tmp := Sum(buf[c], buf[c + 1], buf[c + 2], buf[c + 3]);
    MixBytes(buf[c], buf[c + 1], buf[c + 2], buf[c + 3]);
    buf[c] := MixWith(buf[c], buf[c + 1], tmp);
    buf[c + 1] := MixWith(buf[c + 1], buf[c + 2], tmp);
    buf[c + 2] := MixWith(buf[c + 2], buf[c + 3], tmp);
    buf[c + 3] := MixWith(buf[c + 3], t, tmp);
  }

  lemma MixColumnsPart(s: Block, i: nat)
    requires i < 4
    ensures forall k | 4 * i <= k < 4 * i + 4 :: MixColumns(s)[k] == MixColumn(s[4 * i..4 * i + 4])[k - 4 * i]
    ensures forall k | 4 * i <= k < 4 * i + 4 :: InvMixColumns(s)[k] == InvMixColumn(s[4 * i..4 * i + 4])[k - 4 * i]
  {
    hide MixColumn, InvMixColumn;
    if i == 0 {} else if i == 1 {} else if i == 2 {} else {}
  }

  method MixColumnsAt(buf: array<bv8>, off: nat)
    requires off + 16 <= buf.Length
    modifies buf
    ensures buf[..] == Replaced(old(buf[..]), off, MixColumns(BlockAt(old(buf[..]), off)))
  {
    hide MixColumn, MixColumns;
    ghost var before := buf[..];
    ghost var s := BlockAt(before, off);
    ghost var b := MixColumns(s);
    for i := 0 to 4
      invariant forall k | 0 <= k < buf.Length && !(off <= k < off + 4 * i) :: buf[k] == before[k]
      invariant forall k | 0 <= k < 4 * i :: buf[off + k] == b[k]
    {
      MixColumnsPart(s, i);
      assert buf[off + 4 * i..off + 4 * i + 4] == s[4 * i..4 * i + 4];
      MixColumnAt(buf, off + 4 * i);
      ColumnDone(buf[..], off, i, MixColumn(s[4 * i..4 * i + 4]), b);
    }
    ReplacedFrom(before, buf[..], off, b);
  }

  lemma ColumnDone(buf: seq<bv8>, off: nat, i: nat, q: Column, b: Block)
    requires i < 4 && off + 16 <= |buf| && buf[off + 4 * i..off + 4 * i + 4] == q
    requires forall k | 4 * i <= k < 4 * i + 4 :: b[k] == q[k - 4 * i]
    ensures forall k | 4 * i <= k < 4 * i + 4 :: buf[off + k] == b[k]
  {
    forall k | 4 * i <= k < 4 * i + 4 ensures buf[off + k] == b[k] {
      assert buf[off + 4 * i..off + 4 * i + 4][k - 4 * i] == buf[off + k];
    }
  }

  lemma InvMixStored(x: bv8, y: bv8, z: bv8, w: bv8)
    ensures Stored(Times(x, 0x0e), Times(y, 0x0b), Times(z, 0x0d), Times(w, 0x09)) == InvMix(x, y, z, w)
    ensures Stored(Times(x, 0x09), Times(y, 0x0e), Times(z, 0x0b), Times(w, 0x0d)) == InvMix(y, z, w, x)
    ensures Stored(Times(x, 0x0d), Times(y, 0x09), Times(z, 0x0e), Times(w, 0x0b)) == InvMix(z, w, x, y)
    ensures Stored(Times(x, 0x0b), Times(y, 0x0d), Times(z, 0x09), Times(w, 0x0e)) == InvMix(w, x, y, z)
  {
    hide Times;
    StoredRotates(Times(x, 0x09), Times(y, 0x0e), Times(z, 0x0b), Times(w, 0x0d));
    StoredRotates(Times(x, 0x0d), Times(y, 0x09), Times(z, 0x0e), Times(w, 0x0b));
    StoredRotates(Times(y, 0x09), Times(z, 0x0e), Times(w, 0x0b), Times(x, 0x0d));
    StoredRotates(Times(x, 0x0b), Times(y, 0x0d), Times(z, 0x09), Times(w, 0x0e));
    StoredRotates(Times(y, 0x0d), Times(z, 0x09), Times(w, 0x0e), Times(x, 0x0b));
    StoredRotates(Times(z, 0x09), Times(w, 0x0e), Times(x, 0x0b), Times(y, 0x0d));
    hide Stored;
  }

  lemma StoredRotates(x: bv32, y: bv32, z: bv32, w: bv32)
    ensures Stored(x, y, z, w) == Stored(y, z, w, x)
  {
  }

  // One column of XAES_InvMixColumns; the sums of the macro's int products are cut when stored.
  method InvMixColumnAt(buf: array<bv8>, c: nat)
    requires c + 4 <= buf.Length
    modifies buf
    ensures forall k | 0 <= k < buf.Length && !(c <= k < c + 4) :: buf[k] == old(buf[k])
    ensures buf[c..c + 4] == InvMixColumn(old(buf[c..c + 4]))
  {
    hide Times, Stored, InvMix;
    var x, y, z, w := buf[c], buf[c + 1], buf[c + 2], buf[c + 3];
    InvMixStored(x, y, z, w);
    buf[c] := Stored(Times(x, 0x0e), Times(y, 0x0b), Times(z, 0x0d), Times(w, 0x09));
    buf[c + 1] := Stored(Times(x, 0x09), Times(y, 0x0e), Times(z, 0x0b), Times(w, 0x0d));
    buf[c + 2] := Stored(Times(x, 0x0d), Times(y, 0x09), Times(z, 0x0e), Times(w, 0x0b));
    buf[c + 3] := Stored(Times(x, 0x0b), Times(y, 0x0d), Times(z, 0x09), Times(w, 0x0e));
  }

  method InvMixColumnsAt(buf: array<bv8>, off: nat)
    requires off + 16 <= buf.Length
    modifies buf
    ensures buf[..] == Replaced(old(buf[..]), off, InvMixColumns(BlockAt(old(buf[..]), off)))
  {
    hide InvMixColumn, InvMixColumns;
    ghost var before := buf[..];
    ghost var s := BlockAt(before, off);
    ghost var b := InvMixColumns(s);
    for i := 0 to 4
      invariant forall k | 0 <= k < buf.Length && !(off <= k < off + 4 * i) :: buf[k] == before[k]
      invariant forall k | 0 <= k < 4 * i :: buf[off + k] == b[k]
    {
      MixColumnsPart(s, i);
      forall k | off + 4 * i <= k < off + 4 * i + 4 ensures buf[k] == s[k - off] {}
      assert buf[off + 4 * i..off + 4 * i + 4] == s[4 * i..4 * i + 4];
      InvMixColumnAt(buf, off + 4 * i);
      ColumnDone(buf[..], off, i, InvMixColumn(s[4 * i..4 * i + 4]), b);
    }
    ReplacedFrom(before, buf[..], off, b);
  }

  // Replacing the same block again.
  lemma ReplacedTwice(buf: seq<bv8>, off: nat, a: Block, b: Block)
    requires off + 16 <= |buf|
    ensures BlockAt(Replaced(buf, off, a), off) == a
    ensures Replaced(Replaced(buf, off, a), off, b) == Replaced(buf, off, b)
    ensures Replaced(buf, off, BlockAt(buf, off)) == buf
  {
  }

  method CipherBlock(rk: seq<bv8>, nr: nat, buf: array<bv8>, off: nat)
    requires Keyed(rk, nr) && off + 16 <= buf.Length
    modifies buf
    ensures buf[..] == Replaced(old(buf[..]), off, Encrypt(rk, nr, BlockAt(old(buf[..]), off)))
  {
    hide AddRoundKey, ShiftRows, SubBytes, MixColumns, Replaced;
    ghost var before := buf[..];
    ghost var s := AddRoundKey(BlockAt(before, off), rk, 0);
    AddRoundKeyAt(buf, off, rk, 0);
    var round := 1;
    while true
      invariant 1 <= round <= nr && buf[..] == Replaced(before, off, s)
      invariant Rounds(s, rk, nr, round) == Encrypt(rk, nr, BlockAt(before, off))
      decreases nr - round
    {
      ghost var t := ShiftRows(SubBytes(s));
      ReplacedTwice(before, off, s, SubBytes(s));
      SubBytesAt(buf, off);
      ReplacedTwice(before, off, SubBytes(s), t);
      ShiftRowsAt(buf, off);
      if round == nr {
        ReplacedTwice(before, off, t, AddRoundKey(t, rk, nr));
        break;
      }
      ReplacedTwice(before, off, t, MixColumns(t));
      MixColumnsAt(buf, off);
      s := AddRoundKey(MixColumns(t), rk, round);
      ReplacedTwice(before, off, MixColumns(t), s);
      AddRoundKeyAt(buf, off, rk, round);
      round := round + 1;
    }
    AddRoundKeyAt(buf, off, rk, nr);
  }

  method EcbDecrypt(rk: seq<bv8>, nr: nat, buf: array<bv8>, off: nat)
    requires Keyed(rk, nr) && off + 16 <= buf.Length
    modifies buf
    ensures buf[..] == Replaced(old(buf[..]), off, Decrypt(rk, nr, BlockAt(old(buf[..]), off)))
  {
    hide AddRoundKey, InvShiftRows, InvSubBytes, InvMixColumns, Replaced;
    ghost var before := buf[..];
    ghost var s := AddRoundKey(BlockAt(before, off), rk, nr);
    AddRoundKeyAt(buf, off, rk, nr);
    var round := nr - 1;
    while true
      invariant 0 <= round < nr && buf[..] == Replaced(before, off, s)
      invariant InvRounds(s, rk, round) == Decrypt(rk, nr, BlockAt(before, off))
      decreases round
    {
      ghost var u := InvSubBytes(InvShiftRows(s));
      ghost var t := AddRoundKey(u, rk, round);
      ReplacedTwice(before, off, s, InvShiftRows(s));
      InvShiftRowsAt(buf, off);
      ReplacedTwice(before, off, InvShiftRows(s), u);
      InvSubBytesAt(buf, off);
      ReplacedTwice(before, off, u, t);
      AddRoundKeyAt(buf, off, rk, round);
      if round == 0 { break; }
      s := InvMixColumns(t);
      ReplacedTwice(before, off, t, s);
      InvMixColumnsAt(buf, off);
      round := round - 1;
    }
  }
}
