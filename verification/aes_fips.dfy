/**
 The cipher of section 5.1 of FIPS 197 on a state of four rows and four columns, written apart from
 the code, and that the code computes it.
 */
module AesFips {
  import opened AesBlock
  import opened AesCipher
  import opened AesField

  // s[r][c] is the byte in row r and column c.
  type Square = s: seq<seq<bv8>> | |s| == 4 && |s[0]| == 4 && |s[1]| == 4 && |s[2]| == 4 && |s[3]| == 4
    witness seq(4, _ => seq(4, _ => 0))

  function Build(f: (nat, nat) -> bv8): (s: Square)
    ensures forall r, c | 0 <= r < 4 && 0 <= c < 4 :: s[r][c] == f(r, c)
  {
    [seq(4, c requires 0 <= c < 4 => f(0, c)), seq(4, c requires 0 <= c < 4 => f(1, c)),
     seq(4, c requires 0 <= c < 4 => f(2, c)), seq(4, c requires 0 <= c < 4 => f(3, c))]
  }

  // Section 3.4: the input goes in column by column.
  function In(b: Block): Square {
    Build((r: nat, c: nat) => if r < 4 && c < 4 then b[r + 4 * c] else 0)
  }

  function Out(s: Square): Block {
    seq(16, k requires 0 <= k < 16 => s[k % 4][k / 4])
  }

  // ----- the transformations of sections 5.1.1 to 5.1.4 -----

  ghost function SubBytesOf(s: Square): Square {
    var g: (nat, nat) -> bv8 := (r: nat, c: nat) => if r < 4 && c < 4 then Affine(InverseOf(s[r][c])) else 0;
    Build(g)
  }

  // Row r moves r places to the left.
  function ShiftRowsOf(s: Square): Square {
    Build((r: nat, c: nat) => if r < 4 && c < 4 then s[r][(c + r) % 4] else 0)
  }

  // Row r of the matrix times a column.
  function MatrixRow(r: nat, x: bv8, y: bv8, z: bv8, w: bv8): bv8 {
    if r == 0 then Sum(Mul(2, x), Mul(3, y), z, w)
    else if r == 1 then Sum(x, Mul(2, y), Mul(3, z), w)
    else if r == 2 then Sum(x, y, Mul(2, z), Mul(3, w))
    else Sum(Mul(3, x), y, z, Mul(2, w))
  }

  function MixColumnsOf(s: Square): Square {
    Build((r: nat, c: nat) => if r < 4 && c < 4 then MatrixRow(r, s[0][c], s[1][c], s[2][c], s[3][c]) else 0)
  }

  // Word i of the key schedule.
  function KeyWord(rk: seq<bv8>, i: nat): (w: seq<bv8>)
    requires 4 * i + 4 <= |rk|
    ensures |w| == 4
  {
    rk[4 * i..4 * i + 4]
  }

  // Column c gets word 4 * round + c.
  function AddRoundKeyOf(s: Square, rk: seq<bv8>, round: nat): Square
    requires 16 * (round + 1) <= |rk|
  {
    Build((r: nat, c: nat) => if r < 4 && c < 4 then s[r][c] ^ KeyWord(rk, 4 * round + c)[r] else 0)
  }

  // ----- the cipher of figure 5 -----

  // The state after this round, one of those before the last.
  ghost function After(s: Square, rk: seq<bv8>, round: nat): Square
    requires 16 * (round + 1) <= |rk|
  {
    if round == 0 then AddRoundKeyOf(s, rk, 0)
    else AddRoundKeyOf(MixColumnsOf(ShiftRowsOf(SubBytesOf(After(s, rk, round - 1)))), rk, round)
  }

  ghost function CipherOf(s: Square, rk: seq<bv8>, nr: nat): Square
    requires Keyed(rk, nr)
  {
    AddRoundKeyOf(ShiftRowsOf(SubBytesOf(After(s, rk, nr - 1))), rk, nr)
  }

  // ----- step by step -----

  lemma Same(s: Square, t: Square)
    requires forall r, c | 0 <= r < 4 && 0 <= c < 4 :: s[r][c] == t[r][c]
    ensures s == t
  {
    assert forall r | 0 <= r < 4 :: s[r] == t[r];
  }

  lemma InAt(b: Block, r: nat, c: nat)
    requires r < 4 && c < 4
    ensures In(b)[r][c] == b[r + 4 * c]
  {
  }

  lemma OutIn(b: Block)
    ensures Out(In(b)) == b
  {
    hide In;
    forall k | 0 <= k < 16 ensures Out(In(b))[k] == b[k] { InAt(b, k % 4, k / 4); }
  }

  lemma SubBytesIs(b: Block)
    ensures In(SubBytes(b)) == SubBytesOf(In(b))
  {
    hide In, SBox, Affine, InverseOf;
    forall r, c | 0 <= r < 4 && 0 <= c < 4 ensures In(SubBytes(b))[r][c] == SubBytesOf(In(b))[r][c] {
      InAt(b, r, c);
      InAt(SubBytes(b), r, c);
      SBoxIs(b[r + 4 * c]);
    }
    Same(In(SubBytes(b)), SubBytesOf(In(b)));
  }

  lemma ShiftedAt(b: Block, r: nat, c: nat)
    requires r < 4 && c < 4
    ensures ShiftRows(b)[r + 4 * c] == b[r + 4 * ((c + r) % 4)]
  {
    assert r == 0 || r == 1 || r == 2 || r == 3;
    assert c == 0 || c == 1 || c == 2 || c == 3;
  }

  lemma ShiftRowsIs(b: Block)
    ensures In(ShiftRows(b)) == ShiftRowsOf(In(b))
  {
    hide In, ShiftRows;
    forall r, c | 0 <= r < 4 && 0 <= c < 4 ensures In(ShiftRows(b))[r][c] == ShiftRowsOf(In(b))[r][c] {
      InAt(b, r, (c + r) % 4);
      InAt(ShiftRows(b), r, c);
      ShiftedAt(b, r, c);
    }
    Same(In(ShiftRows(b)), ShiftRowsOf(In(b)));
  }

  lemma KeyAt(rk: seq<bv8>, round: nat, r: nat, c: nat)
    requires 16 * (round + 1) <= |rk| && r < 4 && c < 4
    ensures KeyWord(rk, 4 * round + c)[r] == rk[16 * round + (r + 4 * c)]
  {
    assert 4 * (4 * round + c) + r == 16 * round + (r + 4 * c);
  }

  lemma AddRoundKeyIs(b: Block, rk: seq<bv8>, round: nat)
    requires 16 * (round + 1) <= |rk|
    ensures In(AddRoundKey(b, rk, round)) == AddRoundKeyOf(In(b), rk, round)
  {
    hide In, KeyWord;
    var t := AddRoundKey(b, rk, round);
    forall r, c | 0 <= r < 4 && 0 <= c < 4 ensures In(t)[r][c] == AddRoundKeyOf(In(b), rk, round)[r][c] {
      InAt(b, r, c);
      InAt(t, r, c);
      KeyAt(rk, round, r, c);
    }
    Same(In(t), AddRoundKeyOf(In(b), rk, round));
  }

  lemma MixIs(a: bv8, b: bv8, c: bv8, d: bv8)
    ensures Mix(a, b, c, d) == Sum(Mul(2, a), Mul(3, b), c, d)
  {
    MulTwo(a);
    MulTwo(b);
    DoubleXor(a, b);
    hide Mul, Double;
    XorOrder(Double(a), Double(b), a, b, c, d);
  }

  lemma XorOrder(x: bv8, y: bv8, a: bv8, b: bv8, c: bv8, d: bv8)
    ensures a ^ ((x ^ y) ^ (a ^ b ^ c ^ d)) == x ^ (y ^ b) ^ c ^ d
  {
  }

  lemma XorRotates(a: bv8, b: bv8, c: bv8, d: bv8)
    ensures a ^ b ^ c ^ d == d ^ a ^ b ^ c
  {
  }

  lemma SumRotates(a: bv8, b: bv8, c: bv8, d: bv8)
    ensures Sum(a, b, c, d) == Sum(d, a, b, c)
  {
    XorRotates(a, b, c, d);
  }

  lemma MatrixRowIs(r: nat, x: bv8, y: bv8, z: bv8, w: bv8)
    requires r < 4
    ensures MixColumn([x, y, z, w])[r] == MatrixRow(r, x, y, z, w)
  {
    hide Mix, Mul, Sum;
    if r == 0 {
      MixIs(x, y, z, w);
    } else if r == 1 {
      MixIs(y, z, w, x);
      SumRotates(Mul(2, y), Mul(3, z), w, x);
    } else if r == 2 {
      MixIs(z, w, x, y);
      SumRotates(Mul(2, z), Mul(3, w), x, y);
      SumRotates(y, Mul(2, z), Mul(3, w), x);
    } else {
      MixIs(w, x, y, z);
      SumRotates(Mul(3, x), y, z, Mul(2, w));
      SumRotates(Mul(2, w), Mul(3, x), y, z);
    }
  }

  lemma MixColumnAt(b: Block, r: nat, c: nat)
    requires r < 4 && c < 4
    ensures MixColumns(b)[r + 4 * c] == MixColumn([b[4 * c], b[1 + 4 * c], b[2 + 4 * c], b[3 + 4 * c]])[r]
  {
    hide MixColumn;
    assert c == 0 || c == 1 || c == 2 || c == 3;
    assert b[4 * c..4 * c + 4] == [b[4 * c], b[1 + 4 * c], b[2 + 4 * c], b[3 + 4 * c]];
  }

  lemma MixedAt(b: Block, r: nat, c: nat)
    requires r < 4 && c < 4
    ensures MixColumns(b)[r + 4 * c] == MixColumnsOf(In(b))[r][c]
  {
    hide MixColumns, MixColumn, MatrixRow, In;
    MixColumnAt(b, r, c);
    MatrixRowIs(r, b[4 * c], b[1 + 4 * c], b[2 + 4 * c], b[3 + 4 * c]);
    InAt(b, 0, c);
    InAt(b, 1, c);
    InAt(b, 2, c);
    InAt(b, 3, c);
  }

  lemma MixColumnsIs(b: Block)
    ensures In(MixColumns(b)) == MixColumnsOf(In(b))
  {
    hide In, MixColumns, MixColumnsOf;
    forall r, c | 0 <= r < 4 && 0 <= c < 4 ensures In(MixColumns(b))[r][c] == MixColumnsOf(In(b))[r][c] {
      InAt(MixColumns(b), r, c);
      MixedAt(b, r, c);
    }
    Same(In(MixColumns(b)), MixColumnsOf(In(b)));
  }

  // ----- the rounds -----

  // The rounds from `round` on, begun in the state that is there, end the cipher.
  lemma {:induction false} RoundsAre(s: Block, b: Block, rk: seq<bv8>, nr: nat, round: nat)
    requires Keyed(rk, nr) && 1 <= round <= nr && In(b) == After(In(s), rk, round - 1)
    ensures In(Rounds(b, rk, nr, round)) == CipherOf(In(s), rk, nr)
    decreases nr - round
  {
    hide In, SubBytes, ShiftRows, MixColumns, AddRoundKey, SubBytesOf, ShiftRowsOf, MixColumnsOf, AddRoundKeyOf;
    SubBytesIs(b);
    ShiftRowsIs(SubBytes(b));
    var t := ShiftRows(SubBytes(b));
    if round == nr {
      AddRoundKeyIs(t, rk, nr);
    } else {
      MixColumnsIs(t);
      AddRoundKeyIs(MixColumns(t), rk, round);
      RoundsAre(s, AddRoundKey(MixColumns(t), rk, round), rk, nr, round + 1);
    }
  }

  // XAES_ECB_Crypt on a block is the cipher, for any round keys and any number of rounds.
  lemma EncryptIs(rk: seq<bv8>, nr: nat, b: Block)
    requires Keyed(rk, nr)
    ensures Encrypt(rk, nr, b) == Out(CipherOf(In(b), rk, nr))
  {
    hide In, Out, AddRoundKey, Rounds, CipherOf, AddRoundKeyOf;
    AddRoundKeyIs(b, rk, 0);
    RoundsAre(b, AddRoundKey(b, rk, 0), rk, nr, 1);
    OutIn(Encrypt(rk, nr, b));
  }

  // And XAES_ECB_Decrypt gives the block that the cipher takes to its input, the only one.
  lemma DecryptIs(rk: seq<bv8>, nr: nat, b: Block, c: Block)
    requires Keyed(rk, nr)
    ensures Decrypt(rk, nr, c) == b <==> Out(CipherOf(In(b), rk, nr)) == c
  {
    hide Encrypt, Decrypt, In, Out, CipherOf;
    EncryptIs(rk, nr, b);
    DecryptUndoesEncrypt(rk, nr, b);
    EncryptUndoesDecrypt(rk, nr, c);
  }
}
