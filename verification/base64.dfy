/**
 Base64 and Base64url of src/crypt/base64.c: sections 4 and 5 of RFC 4648 as functions on groups
 of three bytes and four symbols, the loops that fill a fresh buffer, and why decoding undoes
 encoding.
 */
module Base64 {
  import opened Options

  type Bytes = seq<bv8>

  const PAD: bv8 := 61

  // ======================= bits =======================

  // Three bytes as one number of 24 bits, and back.
  function Triple(a: bv8, b: bv8, c: bv8): bv32 { (a as bv32 << 16) + (b as bv32 << 8) + c as bv32 }
  function Low8(t: bv32): bv8 { (t & 0xff) as bv8 }
  function Octet0(t: bv32): bv8 { Low8(t >> 16) }
  function Octet1(t: bv32): bv8 { Low8(t >> 8) }
  function Octet2(t: bv32): bv8 { Low8(t) }

  // Four sextets as the same number, and back.
  function Joined(s0: bv8, s1: bv8, s2: bv8, s3: bv8): bv32 {
    (s0 as bv32 << 18) + (s1 as bv32 << 12) + (s2 as bv32 << 6) + s3 as bv32
  }
  function Low6(t: bv32): bv8 { (t & 0x3f) as bv8 }
  function Sextet0(t: bv32): bv8 { Low6(t >> 18) }
  function Sextet1(t: bv32): bv8 { Low6(t >> 12) }
  function Sextet2(t: bv32): bv8 { Low6(t >> 6) }
  function Sextet3(t: bv32): bv8 { Low6(t) }

  lemma SextetsAreSmall(t: bv32)
    ensures Sextet0(t) < 64 && Sextet1(t) < 64 && Sextet2(t) < 64 && Sextet3(t) < 64
  {
  }

  lemma JoinedSextets(t: bv32)
    requires t < 0x1000000
    ensures Joined(Sextet0(t), Sextet1(t), Sextet2(t), Sextet3(t)) == t
  {
  }

  lemma SextetsJoined(s0: bv8, s1: bv8, s2: bv8, s3: bv8)
    requires s0 < 64 && s1 < 64 && s2 < 64 && s3 < 64
    ensures var t := Joined(s0, s1, s2, s3);
      t < 0x1000000 && Sextet0(t) == s0 && Sextet1(t) == s1 && Sextet2(t) == s2 && Sextet3(t) == s3
  {
  }

  lemma OctetsOfTriple(a: bv8, b: bv8, c: bv8)
    ensures var t := Triple(a, b, c);
      t < 0x1000000 && Octet0(t) == a && Octet1(t) == b && Octet2(t) == c
  {
  }

  lemma TripleOfOctets(t: bv32)
    requires t < 0x1000000
    ensures Triple(Octet0(t), Octet1(t), Octet2(t)) == t
  {
  }

  // A missing byte leaves the last symbol's sextet zero.
  lemma LastOctets(a: bv8, b: bv8)
    ensures Sextet3(Triple(a, b, 0)) == 0
    ensures Sextet2(Triple(a, 0, 0)) == 0 && Sextet3(Triple(a, 0, 0)) == 0
  {
  }

  // The bits of a last symbol that stand for no byte.
  function Spare2(s: bv8): bv8 { s & 3 }
  function Spare4(s: bv8): bv8 { s & 15 }

  lemma SpareBits(s0: bv8, s1: bv8, s2: bv8)
    requires s0 < 64 && s1 < 64 && s2 < 64
    ensures Octet2(Joined(s0, s1, s2, 0)) == 0 <==> Spare2(s2) == 0
    ensures Octet1(Joined(s0, s1, 0, 0)) == 0 <==> Spare4(s1) == 0
    ensures Octet2(Joined(s0, s1, 0, 0)) == 0
  {
  }

  // ======================= the alphabets =======================

  // g_base64EncTable and g_base64UrlEncTable list these in order.
  function Symbol(url: bool, s: bv8): bv8 {
    if s < 26 then s + 65
    else if s < 52 then s + 71
    else if s < 62 then s - 4
    else if s == 62 then (if url then 45 else 43)
    else if url then 95 else 47
  }

  predicate IsSymbol(c: bv8) {
    65 <= c <= 90 || 97 <= c <= 122 || 48 <= c <= 57 || c == 43 || c == 47
  }

  // XBase64_DecodeValue: nothing for a byte outside the alphabet.
  function DecodeValue(c: bv8): Option<bv8> {
    if IsSymbol(c) then Some(TableValue(c)) else None
  }

  // g_base64DecTable, at the bytes of the alphabet.
  function TableValue(c: bv8): bv8 {
    if c >= 97 then c - 71
    else if c >= 65 then c - 65
    else if c >= 48 then c + 4
    else if c == 43 then 62 else 63
  }

  // The URL alphabet mapped to the other one.
  function FromUrl(c: bv8): bv8 {
    if c == 45 then 43 else if c == 95 then 47 else c
  }

  lemma TableInverts(url: bool, s: bv8)
    requires s < 64
    ensures IsSymbol(Symbol(false, s)) && TableValue(Symbol(false, s)) == s
    ensures FromUrl(Symbol(true, s)) == Symbol(false, s)
    ensures Symbol(url, s) != PAD && Symbol(url, s) != 0
  {
  }

  lemma SymbolInverts(c: bv8)
    requires IsSymbol(c)
    ensures TableValue(c) < 64 && Symbol(false, TableValue(c)) == c && c != PAD
  {
  }

  // ======================= encoding =======================

  function Quad(url: bool, a: bv8, b: bv8, c: bv8): (r: Bytes)
    ensures |r| == 4
  {
    var t := Triple(a, b, c);
    [Symbol(url, Sextet0(t)), Symbol(url, Sextet1(t)), Symbol(url, Sextet2(t)), Symbol(url, Sextet3(t))]
  }

  // A group of one, two or three bytes: two, three or four symbols, then padding unless the
  // alphabet is the URL one.
  function Group(url: bool, p: Bytes): (r: Bytes)
    requires 1 <= |p| <= 3
  {
    hide Quad, Symbol;
    if |p| == 3 then Quad(url, p[0], p[1], p[2])
    else if |p| == 2 then Quad(url, p[0], p[1], 0)[..3] + (if url then [] else [PAD])
    else Quad(url, p[0], 0, 0)[..2] + (if url then [] else [PAD, PAD])
  }

  function Encode(url: bool, p: Bytes): (r: Bytes) {
    if p == [] then []
    else if |p| <= 3 then Group(url, p)
    else Quad(url, p[0], p[1], p[2]) + Encode(url, p[3..])
  }

  lemma {:induction false} EncodedLength(url: bool, p: Bytes)
    ensures |Encode(url, p)| == if url then (4 * |p| + 2) / 3 else (|p| + 2) / 3 * 4
  {
    hide Quad;
    if |p| > 3 { EncodedLength(url, p[3..]); }
  }

  // ======================= decoding =======================

  // The number of padding bytes at the end.
  function Pads(x: Bytes): (n: nat)
    ensures n <= |x| && (forall i | |x| - n <= i < |x| :: x[i] == PAD)
    ensures n < |x| ==> x[|x| - 1 - n] != PAD
  {
    if x != [] && x[|x| - 1] == PAD then 1 + Pads(x[..|x| - 1]) else 0
  }

  // At most two padding bytes, and then a whole number of groups; symbols before them; and no
  // group of a single symbol.
  predicate Accepted(x: Bytes) {
    && x != []
    && Pads(x) <= 2
    && (Pads(x) > 0 ==> |x| % 4 == 0)
    && (forall i | 0 <= i < |x| - Pads(x) :: IsSymbol(x[i]))
    && |x| % 4 != 1
  }

  // The sextet at a place: zero for padding and beyond the end.
  function SextetAt(x: Bytes, i: nat): bv8 {
    if i >= |x| || x[i] == PAD then 0 else TableValue(x[i])
  }

  // The three bytes of the first group.
  function Octets(x: Bytes): (r: Bytes)
    ensures |r| == 3
  {
    var t := Joined(SextetAt(x, 0), SextetAt(x, 1), SextetAt(x, 2), SextetAt(x, 3));
    [Octet0(t), Octet1(t), Octet2(t)]
  }

  // How many of them are wanted: one fewer than there are symbols in the group.
  function Wanted(x: Bytes): (n: nat)
    ensures n <= 3
  {
    if |x| > 4 then 3 else if |x| - Pads(x) == 0 then 0 else |x| - Pads(x) - 1
  }

  function Body(x: Bytes): (r: Bytes) {
    if |x| <= 4 then Octets(x)[..Wanted(x)] else Octets(x) + Body(x[4..])
  }

  function Decode(x: Bytes): Option<Bytes> {
    if Accepted(x) then Some(Body(x)) else None
  }

  function Mapped(x: Bytes): (r: Bytes)
    ensures |r| == |x|
  {
    seq(|x|, i requires 0 <= i < |x| => FromUrl(x[i]))
  }

  function DecodeEither(url: bool, x: Bytes): Option<Bytes> {
    if url then Decode(Mapped(x)) else Decode(x)
  }

  // ======================= decoding undoes encoding =======================

  lemma PadsBehind(x: Bytes, y: Bytes)
    requires y != [] && x != [] && x[|x| - 1] != PAD
    ensures Pads(x + y) == Pads(y)
    decreases |y|
  {
    if y[|y| - 1] == PAD {
      assert (x + y)[..|x + y| - 1] == x + y[..|y| - 1];
      if |y| == 1 { assert x + y[..|y| - 1] == x; } else { PadsBehind(x, y[..|y| - 1]); }
    }
  }

  // Four symbols in front change nothing about what follows.
  lemma AcceptedStep(f: Bytes, y: Bytes)
    requires |f| == 4 && y != [] && (forall i | 0 <= i < 4 :: IsSymbol(f[i]))
    ensures Accepted(f + y) <==> Accepted(y)
  {
    hide IsSymbol, TableValue, Symbol, Pads;
    SymbolInverts(f[3]);
    PadsBehind(f, y);
    if Accepted(f + y) {
      forall i | 0 <= i < |y| - Pads(y) ensures IsSymbol(y[i]) { assert y[i] == (f + y)[i + 4]; }
    }
    if Accepted(y) {
      forall i | 0 <= i < |f + y| - Pads(y) ensures IsSymbol((f + y)[i]) {
        if i >= 4 { assert (f + y)[i] == y[i - 4]; }
      }
    }
  }

  lemma BodyStep(f: Bytes, y: Bytes)
    requires |f| == 4 && y != []
    ensures Body(f + y) == Octets(f) + Body(y)
  {
    hide Octets;
    assert (f + y)[4..] == y;
    OctetsFirst(f, y);
  }

  lemma OctetsFirst(f: Bytes, y: Bytes)
    requires |f| == 4
    ensures Octets(f + y) == Octets(f)
  {
  }

  lemma FirstFour(x: Bytes)
    requires Accepted(x) && |x| > 4
    ensures forall i | 0 <= i < 4 :: IsSymbol(x[i])
    ensures x == x[..4] + x[4..]
  {
    hide IsSymbol;
  }

  // Decoding four symbols in front of the rest.
  lemma DecodeStep(f: Bytes, y: Bytes)
    requires |f| == 4 && y != [] && (forall i | 0 <= i < 4 :: IsSymbol(f[i]))
    ensures Decode(f + y) == match Decode(y) case None => None case Some(q) => Some(Octets(f) + q)
  {
    hide IsSymbol, Octets, Body, Accepted;
    AcceptedStep(f, y);
    BodyStep(f, y);
  }

  lemma QuadSymbols(url: bool, a: bv8, b: bv8, c: bv8)
    ensures forall i | 0 <= i < 4 :: IsSymbol(Quad(false, a, b, c)[i]) && Quad(url, a, b, c)[i] != PAD && Quad(url, a, b, c)[i] != 0
    ensures Mapped(Quad(true, a, b, c)) == Quad(false, a, b, c)
  {
    hide Triple, Sextet0, Sextet1, Sextet2, Sextet3, Symbol, IsSymbol, TableValue, FromUrl;
    var t := Triple(a, b, c);
    SextetsAreSmall(t);
    TableInverts(url, Sextet0(t));
    TableInverts(url, Sextet1(t));
    TableInverts(url, Sextet2(t));
    TableInverts(url, Sextet3(t));
  }

  lemma QuadSextets(a: bv8, b: bv8, c: bv8)
    ensures var q, t := Quad(false, a, b, c), Triple(a, b, c);
      SextetAt(q, 0) == Sextet0(t) && SextetAt(q, 1) == Sextet1(t) && SextetAt(q, 2) == Sextet2(t) && SextetAt(q, 3) == Sextet3(t)
  {
    hide Triple, Sextet0, Sextet1, Sextet2, Sextet3, Symbol, IsSymbol, TableValue, Mapped;
    var t := Triple(a, b, c);
    QuadSymbols(false, a, b, c);
    SextetsAreSmall(t);
    TableInverts(false, Sextet0(t));
    TableInverts(false, Sextet1(t));
    TableInverts(false, Sextet2(t));
    TableInverts(false, Sextet3(t));
  }

  lemma QuadOctets(a: bv8, b: bv8, c: bv8)
    ensures Octets(Quad(false, a, b, c)) == [a, b, c]
  {
    hide Triple, Joined, Sextet0, Sextet1, Sextet2, Sextet3, Octet0, Octet1, Octet2, Quad, SextetAt;
    QuadSextets(a, b, c);
    OctetsOfTriple(a, b, c);
    JoinedSextets(Triple(a, b, c));
  }

  // The padding of a group of n bytes.
  function Padding(n: nat): (r: Bytes) {
    if n == 2 then [PAD] else if n == 1 then [PAD, PAD] else []
  }

  lemma GroupIs(url: bool, p: Bytes, a: bv8, b: bv8, c: bv8)
    requires 1 <= |p| <= 3 && a == p[0]
    requires b == (if |p| > 1 then p[1] else 0) && c == (if |p| > 2 then p[2] else 0)
    ensures Group(url, p) == Quad(url, a, b, c)[..|p| + 1] + (if url then [] else Padding(|p|))
  {
    hide Quad;
    assert Quad(url, a, b, c)[..4] == Quad(url, a, b, c);
  }

  // A last group, with the padding or without it.
  lemma GroupUndone(url: bool, p: Bytes)
    requires 1 <= |p| <= 3
    ensures DecodeEither(url, Group(url, p)) == Some(p)
  {
    hide Quad, Octets, IsSymbol, FromUrl, Accepted, Mapped, Group, Padding, Wanted;
    var a, b, c: bv8 := p[0], (if |p| > 1 then p[1] else 0), (if |p| > 2 then p[2] else 0);
    var q := Quad(false, a, b, c);
    GroupIs(url, p, a, b, c);
    QuadSymbols(false, a, b, c);
    QuadSymbols(url, a, b, c);
    QuadOctets(a, b, c);
    LastSextets(a, b, c, |p|);
    var n := |p| + 1;
    if url {
      assert Group(true, p) == Quad(true, a, b, c)[..n];
      MappedPart(Quad(true, a, b, c), n);
    }
    var x := if url then Mapped(Group(true, p)) else Group(false, p);
    ShortAccepted(q, n, x);
    ShortOctets(q, n, x);
    assert [a, b, c][..|p|] == p;
  }

  lemma MappedPart(x: Bytes, n: nat)
    requires n <= |x|
    ensures Mapped(x[..n]) == Mapped(x)[..n]
  {
    hide FromUrl;
  }

  lemma PadsAre(x: Bytes, n: nat)
    requires n < |x| && (forall i | |x| - n <= i < |x| :: x[i] == PAD) && x[|x| - 1 - n] != PAD
    ensures Pads(x) == n
  {
  }

  lemma ShortAccepted(q: Bytes, n: nat, x: Bytes)
    requires |q| == 4 && 2 <= n <= 4 && (forall i | 0 <= i < 4 :: IsSymbol(q[i]) && q[i] != PAD)
    requires x == q[..n] || x == q[..n] + Padding(n - 1)
    ensures Accepted(x) && Wanted(x) == n - 1 && n <= |x| <= 4
    ensures x[..n] == q[..n] && forall i | n <= i < |x| :: x[i] == PAD
  {
    hide IsSymbol, Pads;
    assert x[n - 1] == q[n - 1];
    PadsAre(x, |x| - n);
  }

  // The symbols past the last wanted one stand for zero.
  lemma LastSextets(a: bv8, b: bv8, c: bv8, n: nat)
    requires 1 <= n <= 3 && (n < 2 ==> b == 0) && (n < 3 ==> c == 0)
    ensures forall i | n < i < 4 :: SextetAt(Quad(false, a, b, c), i) == 0
  {
    hide Triple, Sextet0, Sextet1, Sextet2, Sextet3, Quad, SextetAt;
    QuadSextets(a, b, c);
    LastOctets(a, b);
  }

  lemma ShortOctets(q: Bytes, n: nat, x: Bytes)
    requires |q| == 4 && n <= |x| <= 4 && x[..n] == q[..n] && (forall i | n <= i < |x| :: x[i] == PAD)
    requires forall i | n <= i < 4 :: SextetAt(q, i) == 0
    ensures Octets(x) == Octets(q)
  {
    hide TableValue, Joined, Octet0, Octet1, Octet2;
    forall i | 0 <= i < 4 ensures SextetAt(x, i) == SextetAt(q, i) {
      if i < n { assert x[i] == x[..n][i] == q[i]; }
    }
  }

  // XBase64_Decrypt undoes XBase64_Encrypt, and XBase64_UrlDecrypt undoes XBase64_UrlEncrypt,
  // on every non-empty buffer, and the lengths are exact.
  lemma {:induction false} DecodeUndoesEncode(url: bool, p: Bytes)
    requires p != []
    ensures DecodeEither(url, Encode(url, p)) == Some(p)
    ensures Encode(url, p) != []
  {
    hide Quad, Octets, IsSymbol, FromUrl, Decode, Mapped;
    if |p| <= 3 {
      GroupUndone(url, p);
      assert Encode(url, p) == Group(url, p);
      EncodedLength(url, p);
    } else {
      var f, g := Quad(false, p[0], p[1], p[2]), Quad(url, p[0], p[1], p[2]);
      var y := Encode(url, p[3..]);
      DecodeUndoesEncode(url, p[3..]);
      QuadSymbols(url, p[0], p[1], p[2]);
      QuadOctets(p[0], p[1], p[2]);
      MappedConcat(g, y);
      DecodeStep(f, if url then Mapped(y) else y);
      assert [p[0], p[1], p[2]] + p[3..] == p;
    }
  }

  lemma MappedConcat(x: Bytes, y: Bytes)
    ensures Mapped(x + y) == Mapped(x) + Mapped(y)
  {
    hide FromUrl;
  }

  // ======================= which texts are encodings =======================

  // Padded in full, with no bits set in the last symbol beyond the last byte.
  predicate Canonical(x: Bytes) {
    && |x| % 4 == 0
    && (Pads(x) == 1 ==> Spare2(SextetAt(x, |x| - 2)) == 0)
    && (Pads(x) == 2 ==> Spare4(SextetAt(x, |x| - 3)) == 0)
  }

  // A text is the encoding of a buffer exactly when it decodes to it and is canonical: decoding
  // also accepts texts that no encoder writes, and only by missing padding or spare bits.
  lemma EncodesExactly(x: Bytes, p: Bytes)
    requires p != []
    ensures x == Encode(false, p) <==> Decode(x) == Some(p) && Canonical(x)
  {
    hide Decode, Encode, Canonical;
    DecodeUndoesEncode(false, p);
    if Decode(x) == Some(p) { EncodeUndoesDecode(x, p); }
  }

  lemma {:induction false} EncodeUndoesDecode(x: Bytes, p: Bytes)
    requires Decode(x) == Some(p)
    ensures p != [] && (x == Encode(false, p) <==> Canonical(x))
    decreases |x|
  {
    hide *;
    DecodeIs(x);
    if |x| > 4 {
      FirstFour(x);
      RestAccepted(x);
      DecodeIs(x[4..]);
      EncodeUndoesDecode(x[4..], p[3..]);
      CanonicalStep(x);
      OctetsFirst(x[..4], x[4..]);
      EncodeStep(x[..4], p);
    } else {
      AcceptedMeans(x);
      ShortBody(x);
      if |x| == 4 { GroupAgain(x); } else { ShortOne(x); }
    }
  }

  // ----- the URL alphabet -----

  // The padding that is left out.
  function Missing(n: nat): nat { (4 - n % 4) % 4 }
  function Full(y: Bytes): Bytes { y + seq(Missing(|y|), _ => PAD) }

  // No padding, no symbol of the other alphabet, and no spare bits.
  predicate UrlCanonical(x: Bytes) {
    (forall i | 0 <= i < |x| :: x[i] != 43 && x[i] != 47 && x[i] != PAD) && Canonical(Full(Mapped(x)))
  }

  lemma FullPads(y: Bytes)
    requires y != [] && y[|y| - 1] != PAD
    ensures Pads(y) == 0 && Pads(Full(y)) == Missing(|y|) && |Full(y)| % 4 == 0
  {
    PadsAre(y, 0);
    PadsAre(Full(y), Missing(|y|));
  }

  lemma FullAccepted(y: Bytes)
    requires y != [] && y[|y| - 1] != PAD
    ensures Accepted(Full(y)) <==> Accepted(y)
  {
    hide IsSymbol, Pads;
    FullPads(y);
    assert forall i | 0 <= i < |y| :: Full(y)[i] == y[i];
  }

  lemma {:induction false} FullBody(y: Bytes)
    requires y != [] && y[|y| - 1] != PAD
    ensures Body(Full(y)) == Body(y)
    decreases |y|
  {
    FullFirst(y);
    hide Octets, Wanted;
    if |y| > 4 {
      assert Full(y)[4..] == Full(y[4..]);
      FullBody(y[4..]);
    }
  }

  lemma FullFirst(y: Bytes)
    ensures Octets(Full(y)) == Octets(y) && (|y| <= 4 ==> Wanted(Full(y)) == Wanted(y))
  {
    hide TableValue, Joined, Octet0, Octet1, Octet2;
    var x := Full(y);
    forall i | 0 <= i < 4 ensures SextetAt(x, i) == SextetAt(y, i) {}
  }

  // An encoding in the URL alphabet is one in the other, mapped and without padding.
  lemma {:induction false} UrlForm(p: Bytes)
    requires p != []
    ensures var x := Encode(true, p);
      Full(Mapped(x)) == Encode(false, p) && forall i | 0 <= i < |x| :: x[i] != 43 && x[i] != 47 && x[i] != PAD
    decreases |p|
  {
    hide Quad, FromUrl, Mapped, Group;
    if |p| <= 3 {
      UrlGroup(p);
    } else {
      var q := Quad(true, p[0], p[1], p[2]);
      QuadSymbols(true, p[0], p[1], p[2]);
      QuadIsUrl(p[0], p[1], p[2]);
      UrlForm(p[3..]);
      var y := Encode(true, p[3..]);
      MappedConcat(q, y);
      assert Full(Mapped(q) + Mapped(y)) == Mapped(q) + Full(Mapped(y));
    }
  }

  lemma UrlGroup(p: Bytes)
    requires 1 <= |p| <= 3
    ensures var x := Group(true, p);
      Full(Mapped(x)) == Group(false, p) && forall i | 0 <= i < |x| :: x[i] != 43 && x[i] != 47 && x[i] != PAD
  {
    hide Quad, FromUrl, Mapped, Group;
    var a, b, c: bv8 := p[0], (if |p| > 1 then p[1] else 0), (if |p| > 2 then p[2] else 0);
    var q := Quad(true, a, b, c);
    QuadSymbols(true, a, b, c);
    QuadIsUrl(a, b, c);
    GroupIs(true, p, a, b, c);
    GroupIs(false, p, a, b, c);
    MappedPart(q, |p| + 1);
    PaddingOf(|p|);
    assert Group(true, p) == q[..|p| + 1];
  }

  lemma QuadIsUrl(a: bv8, b: bv8, c: bv8)
    ensures forall i | 0 <= i < 4 :: Quad(true, a, b, c)[i] != 43 && Quad(true, a, b, c)[i] != 47
  {
    hide Triple, Sextet0, Sextet1, Sextet2, Sextet3;
    SextetsAreSmall(Triple(a, b, c));
  }

  lemma MappedOnce(x: Bytes, y: Bytes)
    requires Mapped(x) == Mapped(y)
    requires (forall i | 0 <= i < |x| :: x[i] != 43 && x[i] != 47) && (forall i | 0 <= i < |y| :: y[i] != 43 && y[i] != 47)
    ensures x == y
  {
    forall i | 0 <= i < |x| ensures x[i] == y[i] { assert Mapped(x)[i] == Mapped(y)[i]; }
  }

  lemma FullOnce(x: Bytes, y: Bytes)
    requires x != [] && y != [] && x[|x| - 1] != PAD && y[|y| - 1] != PAD && Full(x) == Full(y)
    ensures x == y
  {
    FullPads(x);
    FullPads(y);
    assert x == Full(x)[..|Full(x)| - Pads(Full(x))] == y;
  }

  // The same for the URL alphabet: decoding also accepts padding, the symbols of the other
  // alphabet, and spare bits.
  lemma UrlEncodesExactly(x: Bytes, p: Bytes)
    requires p != []
    ensures x == Encode(true, p) <==> DecodeEither(true, x) == Some(p) && UrlCanonical(x)
  {
    hide Encode, Canonical, Body, Accepted, Pads, Full;
    var e := Encode(true, p);
    UrlForm(p);
    DecodeUndoesEncode(true, p);
    EncodesExactly(Encode(false, p), p);
    if DecodeEither(true, x) == Some(p) && UrlCanonical(x) {
      AcceptedMeans(Mapped(x));
      FullAccepted(Mapped(x));
      FullBody(Mapped(x));
      EncodesExactly(Full(Mapped(x)), p);
      FullOnce(Mapped(x), Mapped(e));
      MappedOnce(x, e);
    }
  }

  lemma CanonicalStep(x: Bytes)
    requires Accepted(x) && |x| > 4
    ensures Canonical(x) <==> Canonical(x[4..])
  {
    hide Accepted, IsSymbol, Spare2, Spare4, TableValue, Pads;
    RestAccepted(x);
    AcceptedMeans(x);
  }

  lemma AcceptedMeans(x: Bytes)
    requires Accepted(x)
    ensures x != [] && |x| % 4 != 1 && Pads(x) <= 2 && (Pads(x) > 0 ==> |x| % 4 == 0)
    ensures forall i | 0 <= i < |x| - Pads(x) :: IsSymbol(x[i])
  {
    hide IsSymbol, Pads;
  }

  lemma ShortBody(x: Bytes)
    requires Accepted(x) && |x| <= 4
    ensures |x| > Pads(x) + 1 && Body(x) == Octets(x)[..|x| - Pads(x) - 1]
  {
    hide IsSymbol, Octets, Accepted, Pads;
    AcceptedMeans(x);
  }

  lemma EncodeStep(f: Bytes, p: Bytes)
    requires |f| == 4 && (forall i | 0 <= i < 4 :: IsSymbol(f[i])) && |p| > 3 && p[..3] == Octets(f)
    ensures Encode(false, p) == f + Encode(false, p[3..])
  {
    hide Quad, Octets, IsSymbol;
    QuadAgain(f);
    var o := p[..3];
    assert p[0] == o[0] && p[1] == o[1] && p[2] == o[2];
  }

  lemma QuadAgain(f: Bytes)
    requires |f| == 4 && (forall i | 0 <= i < 4 :: IsSymbol(f[i]))
    ensures var o := Octets(f); Quad(false, o[0], o[1], o[2]) == f
  {
    hide Triple, Joined, Sextet0, Sextet1, Sextet2, Sextet3, Octet0, Octet1, Octet2, Symbol, IsSymbol, TableValue;
    var s0, s1, s2, s3 := TableValue(f[0]), TableValue(f[1]), TableValue(f[2]), TableValue(f[3]);
    SymbolInverts(f[0]);
    SymbolInverts(f[1]);
    SymbolInverts(f[2]);
    SymbolInverts(f[3]);
    SextetsJoined(s0, s1, s2, s3);
    TripleOfOctets(Joined(s0, s1, s2, s3));
  }

  // The last group of a padded text.
  lemma GroupAgain(x: Bytes)
    requires Accepted(x) && |x| == 4
    ensures Encode(false, Body(x)) == x <==> Canonical(x)
  {
    hide Octets, IsSymbol, Accepted, Quad, TableValue, Group, Padding, Spare2, Spare4, Pads;
    AcceptedMeans(x);
    ShortBody(x);
    var o := Octets(x);
    if Pads(x) == 0 {
      QuadAgain(x);
      assert Body(x) == o;
      GroupIs(false, o, o[0], o[1], o[2]);
      PaddingOf(3);
      assert x[..4] == x;
    } else if Pads(x) == 1 {
      GroupIs(false, o[..2], o[0], o[1], 0);
      PaddingOf(2);
      Padded1(x);
    } else {
      GroupIs(false, o[..1], o[0], 0, 0);
      PaddingOf(1);
      Padded2(x);
    }
  }

  lemma PaddingOf(n: nat)
    ensures Padding(1) == [PAD, PAD] && Padding(2) == [PAD] && Padding(3) == []
  {
  }

  lemma Padded1(x: Bytes)
    requires |x| == 4 && x[3] == PAD && (forall i | 0 <= i < 3 :: IsSymbol(x[i]))
    ensures var o := Octets(x);
      Quad(false, o[0], o[1], 0)[..3] + [PAD] == x <==> Spare2(SextetAt(x, 2)) == 0
  {
    hide Triple, Joined, Sextet0, Sextet1, Sextet2, Sextet3, Octet0, Octet1, Octet2, Symbol, IsSymbol, TableValue, Spare2;
    var s0, s1, s2 := TableValue(x[0]), TableValue(x[1]), TableValue(x[2]);
    SymbolInverts(x[0]);
    SymbolInverts(x[1]);
    SymbolInverts(x[2]);
    SextetsJoined(s0, s1, s2, 0);
    var t := Joined(s0, s1, s2, 0);
    SpareBits(s0, s1, s2);
    TripleOfOctets(t);
    var u := Triple(Octet0(t), Octet1(t), 0);
    OctetsOfTriple(Octet0(t), Octet1(t), 0);
    SextetsAreSmall(u);
    LastOctets(Octet0(t), Octet1(t));
    TableInverts(false, Sextet0(u));
    TableInverts(false, Sextet1(u));
    TableInverts(false, Sextet2(u));
    JoinedSextets(u);
    assert (Quad(false, Octet0(t), Octet1(t), 0)[..3] + [PAD] == x) <==>
           Symbol(false, Sextet0(u)) == x[0] && Symbol(false, Sextet1(u)) == x[1] && Symbol(false, Sextet2(u)) == x[2];
  }

  lemma Padded2(x: Bytes)
    requires |x| == 4 && x[2] == PAD && x[3] == PAD && (forall i | 0 <= i < 2 :: IsSymbol(x[i]))
    ensures var o := Octets(x);
      Quad(false, o[0], 0, 0)[..2] + [PAD, PAD] == x <==> Spare4(SextetAt(x, 1)) == 0
  {
    hide Triple, Joined, Sextet0, Sextet1, Sextet2, Sextet3, Octet0, Octet1, Octet2, Symbol, IsSymbol, TableValue, Spare4;
    var s0, s1 := TableValue(x[0]), TableValue(x[1]);
    SymbolInverts(x[0]);
    SymbolInverts(x[1]);
    SextetsJoined(s0, s1, 0, 0);
    var t := Joined(s0, s1, 0, 0);
    SpareBits(s0, s1, 0);
    TripleOfOctets(t);
    var u := Triple(Octet0(t), 0, 0);
    OctetsOfTriple(Octet0(t), 0, 0);
    SextetsAreSmall(u);
    LastOctets(Octet0(t), 0);
    TableInverts(false, Sextet0(u));
    TableInverts(false, Sextet1(u));
    JoinedSextets(u);
    assert (Quad(false, Octet0(t), 0, 0)[..2] + [PAD, PAD] == x) <==>
           Symbol(false, Sextet0(u)) == x[0] && Symbol(false, Sextet1(u)) == x[1];
  }

  lemma ShortOne(x: Bytes)
    requires Accepted(x) && |x| < 4
    ensures Encode(false, Body(x)) != x && !Canonical(x)
  {
    hide Octets, IsSymbol, Accepted, Encode;
    AcceptedMeans(x);
    ShortBody(x);
    EncodedLength(false, Body(x));
  }

  // ======================= the loops =======================

  // All groups as full ones, with zero for a missing byte.
  function Quads(url: bool, p: Bytes): Bytes
    decreases |p|
  {
    hide Quad;
    if p == [] then []
    else Quad(url, p[0], At(p, 1), At(p, 2)) + Quads(url, Rest(p))
  }

  function Rest(p: Bytes): Bytes { if |p| <= 3 then [] else p[3..] }

  function At(p: Bytes, i: nat): bv8 { if i < |p| then p[i] else 0 }

  function PadCount(n: nat): nat { if n % 3 == 0 then 0 else 3 - n % 3 }

  lemma {:induction false} QuadsLength(url: bool, p: Bytes)
    ensures |Quads(url, p)| == (|p| + 2) / 3 * 4
    decreases |p|
  {
    hide Quad;
    if p != [] { QuadsLength(url, Rest(p)); }
  }

  // Padding takes the place of the symbols for missing bytes, or those are dropped.
  lemma {:induction false} EncodeIsQuads(url: bool, p: Bytes)
    requires p != []
    ensures PadCount(|p|) < |Quads(url, p)|
    ensures Encode(url, p) == Ended(url, Quads(url, p), PadCount(|p|))
    decreases |p|
  {
    hide Quad, Group, Ended, Padding;
    if |p| <= 3 {
      GroupIs(url, p, p[0], At(p, 1), At(p, 2));
      assert Quads(url, p) == Quad(url, p[0], At(p, 1), At(p, 2));
      EndedGroup(url, Quads(url, p), |p|);
    } else {
      EncodeIsQuads(url, p[3..]);
      EndedStep(url, Quad(url, p[0], p[1], p[2]), Quads(url, p[3..]), PadCount(|p|));
    }
  }

  function Ended(url: bool, q: Bytes, k: nat): Bytes
    requires k <= |q|
  {
    q[..|q| - k] + if url then [] else seq(k, _ => PAD)
  }

  lemma EndedStep(url: bool, f: Bytes, q: Bytes, k: nat)
    requires k <= |q|
    ensures Ended(url, f + q, k) == f + Ended(url, q, k)
  {
    assert (f + q)[..|f + q| - k] == f + q[..|q| - k];
  }

  lemma EndedGroup(url: bool, q: Bytes, n: nat)
    requires |q| == 4 && 1 <= n <= 3
    ensures Ended(url, q, PadCount(n)) == q[..n + 1] + if url then [] else Padding(n)
  {
    assert seq(PadCount(n), _ => PAD) == Padding(n);
  }

  lemma {:induction false} NoZero(url: bool, p: Bytes)
    ensures forall i | 0 <= i < |Encode(url, p)| :: Encode(url, p)[i] != 0
  {
    hide Quad, IsSymbol, Mapped;
    if p != [] {
      QuadSymbols(url, p[0], At(p, 1), At(p, 2));
      if |p| <= 3 {
        GroupIs(url, p, p[0], At(p, 1), At(p, 2));
      } else {
        NoZero(url, p[3..]);
      }
    }
  }

  method PutQuad(out: array<bv8>, j: nat, url: bool, a: bv8, b: bv8, c: bv8)
    requires j + 4 <= out.Length
    modifies out
    ensures out[..] == old(out[..j]) + Quad(url, a, b, c) + old(out[j + 4..])
  {
    hide Triple, Sextet0, Sextet1, Sextet2, Sextet3, Symbol;
    var t := Triple(a, b, c);
    out[j] := Symbol(url, Sextet0(t));
    out[j + 1] := Symbol(url, Sextet1(t));
    out[j + 2] := Symbol(url, Sextet2(t));
    out[j + 3] := Symbol(url, Sextet3(t));
  }

  // Up to three bytes from place i, zero for the missing ones.
  method TakeOctets(input: Bytes, i: nat) returns (a: bv8, b: bv8, c: bv8, next: nat)
    requires i < |input|
    ensures a == input[i..][0] && b == At(input[i..], 1) && c == At(input[i..], 2)
    ensures i < next <= |input| && (next == i + 3 || next == |input| < i + 3) && input[next..] == Rest(input[i..])
  {
    a, b, c, next := input[i], 0, 0, i + 1;
    if next < |input| { b := input[next]; next := next + 1; }
    if next < |input| { c := input[next]; next := next + 1; }
  }

  // The loop both encoders begin with, over a cleared buffer.
  method FillQuads(url: bool, input: Bytes) returns (out: array<bv8>)
    ensures fresh(out) && out.Length == (|input| + 2) / 3 * 4 + 1
    ensures out[..out.Length - 1] == Quads(url, input) && out[out.Length - 1] == 0
  {
    hide *;
    var n := (|input| + 2) / 3 * 4;
    out := new bv8[n + 1](_ => 0);
    var i, j := 0, 0;
    assert input[0..] == input;
    QuadsLength(url, input);
    while i < |input|
      invariant i <= |input| && j <= n
      invariant out[..j] + Quads(url, input[i..]) == Quads(url, input)
      invariant out[n] == 0
    {
      ghost var done := out[..j];
      var a, b, c, next := TakeOctets(input, i);
      QuadsMove(url, input[i..], input[next..], done, a, b, c);
      PutQuad(out, j, url, a, b, c);
      assert out[..j + 4] == done + Quad(url, a, b, c);
      i, j := next, j + 4;
    }
    assert input[i..] == [] && out[..j] + [] == out[..j];
    QuadsEmpty(url);
  }

  lemma QuadsMove(url: bool, rest: Bytes, next: Bytes, done: Bytes, a: bv8, b: bv8, c: bv8)
    requires rest != [] && next == Rest(rest) && a == rest[0] && b == At(rest, 1) && c == At(rest, 2)
    ensures done + Quad(url, a, b, c) + Quads(url, next) == done + Quads(url, rest)
    ensures |Quads(url, rest)| >= 4
  {
    hide Quad;
  }

  lemma QuadsEmpty(url: bool)
    ensures Quads(url, []) == []
  {
  }

  // Back over the zeros at the end. The byte at `last` is one of them, so the source's flag is
  // always set.
  method TrimmedLength(out: array<bv8>, last: nat, ghost n: nat) returns (length: nat)
    requires 0 < n <= last < out.Length && out[n - 1] != 0
    requires forall i | n <= i <= last :: out[i] == 0
    ensures length == n
  {
    var k := last;
    while out[k] == 0
      invariant n - 1 <= k <= last
      decreases k
    {
      k := k - 1;
    }
    length := k + 1;
  }

  // XBase64_Encrypt
  method Encrypt(input: Bytes) returns (output: array?<bv8>, length: nat)
    ensures output != null ==> fresh(output)
    ensures Returned(output, length, if input == [] then None else Some(Encode(false, input)))
  {
    hide Encode, Quads;
    if |input| == 0 { return null, 0; }
    var out := FillQuads(false, input);
    var last := out.Length - 1;
    ghost var quads := out[..last];
    EncodeIsQuads(false, input);
    for i := 0 to PadCount(|input|)
      invariant out[..last] == quads[..last - i] + seq(i, _ => PAD)
      invariant out[last] == 0
    {
      out[last - 1 - i] := PAD;
    }
    NoZero(false, input);
    ghost var text := Encode(false, input);
    assert out[..|text|] == text;
    length := TrimmedLength(out, last, |text|);
    output := out;
  }

  // XBase64_UrlEncrypt
  method UrlEncrypt(input: Bytes) returns (output: array?<bv8>, length: nat)
    ensures output != null ==> fresh(output)
    ensures Returned(output, length, if input == [] then None else Some(Encode(true, input)))
  {
    hide Encode, Quads;
    if |input| == 0 { return null, 0; }
    var out := FillQuads(true, input);
    var last := out.Length - 1;
    ghost var quads := out[..last];
    EncodeIsQuads(true, input);
    for i := 0 to PadCount(|input|)
      invariant out[..last] == quads[..last - i] + seq(i, _ => 0)
      invariant out[last] == 0
    {
      out[last - 1 - i] := 0;
    }
    NoZero(true, input);
    ghost var text := Encode(true, input);
    assert out[..|text|] == text;
    length := TrimmedLength(out, last, |text|);
    output := out;
  }

  // The length the decoder allocates, with the padding that is there or left out.
  function OutLength(x: Bytes): (n: int) {
    var pad := Pads(x) + MissingPads(x);
    (|x| + MissingPads(x)) / 4 * 3 - pad
  }

  function MissingPads(x: Bytes): nat { if Pads(x) == 0 && |x| % 4 != 0 then 4 - |x| % 4 else 0 }

  // It is the length of what is decoded, so neither of the later length checks can fail.
  lemma {:induction false} OutLengthIs(x: Bytes)
    requires Accepted(x)
    ensures OutLength(x) == |Body(x)|
  {
    hide Octets, IsSymbol, Accepted, Pads, Body;
    AcceptedMeans(x);
    if |x| > 4 {
      RestAccepted(x);
      OutLengthIs(x[4..]);
    } else {
      ShortBody(x);
    }
  }

  lemma RestAccepted(x: Bytes)
    requires Accepted(x) && |x| > 4
    ensures Accepted(x[4..]) && Pads(x[4..]) == Pads(x)
    ensures Body(x) == Octets(x) + Body(x[4..])
  {
    hide IsSymbol, Octets, Accepted, Pads, Body, TableValue, Symbol;
    FirstFour(x);
    var f, y := x[..4], x[4..];
    assert forall i | 0 <= i < 4 :: f[i] == x[i];
    AcceptedStep(f, y);
    SymbolInverts(f[3]);
    PadsBehind(f, y);
    BodyStep(f, y);
    OctetsFirst(f, y);
  }

  lemma BodyLast(x: Bytes)
    requires Accepted(x) && |x| <= 4
    ensures Body(x) == Octets(x)[..|Body(x)|] && |Body(x)| <= 3
  {
    hide Octets, IsSymbol;
  }

  // Every byte up to the padding has a value.
  lemma BytesHaveValues(x: Bytes, i: nat)
    requires Accepted(x)
    ensures i < |x| && x[i] != PAD ==> DecodeValue(x[i]) == Some(SextetAt(x, i))
  {
  }

  // The number of '=' at the end.
  method CountPads(input: Bytes) returns (n: nat)
    ensures n == Pads(input)
  {
    n := 0;
    while n < |input| && input[|input| - 1 - n] == PAD
      invariant n <= |input| && forall i | |input| - n <= i < |input| :: input[i] == PAD
    {
      n := n + 1;
    }
    if n < |input| { PadsAre(input, n); }
  }

  // The sextets of one group. Where the source returns for a byte without a value there is none.
  method TakeSextets(input: Bytes, i: nat) returns (t: bv32)
    requires Accepted(input) && i <= |input|
    ensures var g := input[i..];
      t == Joined(SextetAt(g, 0), SextetAt(g, 1), SextetAt(g, 2), SextetAt(g, 3))
  {
    hide *;
    var sextets := new bv8[4](_ => 0);
    for k := 0 to 4
      invariant forall m | 0 <= m < k :: sextets[m] == SextetAt(input, i + m)
    {
      BytesHaveValues(input, i + k);
      NoSextet(input, i + k);
      if i + k >= |input| || input[i + k] == PAD {
        sextets[k] := 0;
      } else {
        sextets[k] := DecodeValue(input[i + k]).value;
      }
    }
    SextetsBehind(input, i);
    t := Joined(sextets[0], sextets[1], sextets[2], sextets[3]);
  }

  lemma NoSextet(x: Bytes, i: nat)
    ensures i >= |x| || x[i] == PAD ==> SextetAt(x, i) == 0
  {
  }

  lemma SextetsBehind(x: Bytes, i: nat)
    requires i <= |x|
    ensures forall k | 0 <= k < 4 :: SextetAt(x[i..], k) == SextetAt(x, i + k)
  {
    hide TableValue;
  }

  // The checks of XBase64_Decrypt.
  method Check(input: Bytes) returns (ok: bool)
    ensures ok == Accepted(input)
  {
    hide IsSymbol;
    if |input| == 0 { return false; }
    var pads := CountPads(input);
    if pads > 2 { return false; }
    if pads > 0 && |input| % 4 != 0 { return false; }
    for i := 0 to |input| - pads
      invariant forall k | 0 <= k < i :: IsSymbol(input[k])
    {
      SymbolOrNot(input[i]);
      if input[i] == PAD || DecodeValue(input[i]) == None { return false; }
    }
    return |input| % 4 != 1;
  }

  lemma SymbolOrNot(c: bv8)
    ensures IsSymbol(c) <==> c != PAD && DecodeValue(c) != None
  {
  }

  method Length(input: Bytes, pads: nat, missing: nat) returns (n: nat)
    requires Accepted(input) && pads == Pads(input) && missing == MissingPads(input)
    ensures n == |Body(input)|
  {
    OutLengthIs(input);
    n := (|input| + missing) / 4 * 3 - (pads + missing);
  }

  lemma OctetsAre(g: Bytes, t: bv32)
    requires t == Joined(SextetAt(g, 0), SextetAt(g, 1), SextetAt(g, 2), SextetAt(g, 3))
    ensures Octets(g) == [Octet0(t), Octet1(t), Octet2(t)]
  {
  }

  // As many of the three bytes as there is room for.
  method PutOctets(out: array<bv8>, j: nat, n: nat, t: bv32) returns (next: nat)
    requires j <= n < out.Length
    modifies out
    ensures j <= next == (if j + 3 <= n then j + 3 else n)
    ensures out[..next] == old(out[..j]) + [Octet0(t), Octet1(t), Octet2(t)][..next - j]
    ensures forall k | next <= k < out.Length :: out[k] == old(out[k])
  {
    hide *;
    next := j;
    if next < n { out[next] := Octet0(t); next := next + 1; }
    if next < n { out[next] := Octet1(t); next := next + 1; }
    if next < n { out[next] := Octet2(t); next := next + 1; }
  }

  lemma GroupsLeft(x: Bytes, i: nat)
    requires Accepted(x) && i % 4 == 0 && i < |x| && Accepted(x[i..])
    ensures i + 4 < |x| <==> |x[i..]| > 4
    ensures i + 4 < |x| + MissingPads(x) <==> i + 4 < |x|
  {
    hide IsSymbol;
  }

  // One group decoded: the rest of the text is still to come, or nothing is.
  lemma BodyMove(g: Bytes, t: bv32, done: Bytes, kept: nat)
    requires Accepted(g) && t == Joined(SextetAt(g, 0), SextetAt(g, 1), SextetAt(g, 2), SextetAt(g, 3))
    requires kept == if 3 <= |Body(g)| then 3 else |Body(g)|
    ensures var put := done + [Octet0(t), Octet1(t), Octet2(t)][..kept];
      if |g| > 4 then Accepted(g[4..]) && put + Body(g[4..]) == done + Body(g) else put == done + Body(g)
  {
    hide *;
    OctetsAre(g, t);
    var three := Octets(g);
    if |g| > 4 {
      RestAccepted(g);
      assert three[..3] == three;
      assert done + three + Body(g[4..]) == done + (three + Body(g[4..]));
    } else {
      BodyLast(g);
    }
  }

  // XBase64_Decrypt
  method Decrypt(input: Bytes) returns (output: array?<bv8>, length: nat)
    ensures output != null ==> fresh(output)
    ensures Returned(output, length, Decode(input))
  {
    hide *;
    DecodeIs(input);
    var ok := Check(input);
    if !ok { Nothing(); return null, 0; }
    var pads := CountPads(input);
    MissingIs(input);
    var missing := if pads == 0 && |input| % 4 != 0 then 4 - |input| % 4 else 0;
    var n := Length(input, pads, missing);
    var out := new bv8[n + 1](_ => 0);
    var i, j := 0, 0;
    assert input[0..] == input && out[..0] + Body(input) == Body(input);
    while i < |input| + missing
      invariant i % 4 == 0 && j <= n && out[n] == 0
      invariant i < |input| + missing ==> i < |input| && Accepted(input[i..]) && out[..j] + Body(input[i..]) == Body(input)
      invariant i >= |input| + missing ==> out[..j] == Body(input)
    {
      ghost var g, done := input[i..], out[..j];
      GroupsLeft(input, i);
      var t := TakeSextets(input, i);
      var next := PutOctets(out, j, n, t);
      assert out[n] == 0;
      BodyMove(g, t, done, next - j);
      assert |g| > 4 ==> input[i + 4..] == g[4..];
      i, j := i + 4, next;
    }
    Something(out, n, Body(input));
    output, length := out, n;
  }

  lemma DecodeIs(x: Bytes)
    ensures Decode(x) == if Accepted(x) then Some(Body(x)) else None
    ensures Accepted(x) ==> x != []
  {
    hide Body, IsSymbol, Pads;
  }

  lemma MissingIs(x: Bytes)
    ensures MissingPads(x) == if Pads(x) == 0 && |x| % 4 != 0 then 4 - |x| % 4 else 0
  {
  }

  lemma Nothing()
    ensures Returned(null, 0, None)
  {
  }

  lemma Something(out: array<bv8>, n: nat, text: Bytes)
    requires n < out.Length && n == |text| && out[..n] == text && out[n] == 0
    ensures Returned(out, n, Some(text))
  {
  }

  // XBase64_UrlDecrypt
  method UrlDecrypt(input: Bytes) returns (output: array?<bv8>, length: nat)
    ensures output != null ==> fresh(output)
    ensures Returned(output, length, DecodeEither(true, input))
  {
    hide Decode;
    if |input| == 0 {
      DecodeIs([]);
      return null, 0;
    }
    var mapped := new bv8[|input| + 1](_ => 0);
    for i := 0 to |input|
      invariant forall k | 0 <= k < i :: mapped[k] == FromUrl(input[k])
    {
      if input[i] == 45 { mapped[i] := 43; }
      else if input[i] == 95 { mapped[i] := 47; }
      else { mapped[i] := input[i]; }
    }
    assert mapped[..|input|] == Mapped(input);
    output, length := Decrypt(mapped[..|input|]);
  }
}
