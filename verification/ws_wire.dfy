/**
 The bytes of a WebSocket frame as numbers, as section 5.2 of RFC 6455 lays them out: what the parser
 reads, and so what is written.
 */
module WsWire {
  import opened Options
  import opened ByteTools
  import opened WsFrames
  import opened WsEncode

  // The opcodes of section 11.8.
  predicate HasOpcode(kind: Kind, n: nat) {
    && (kind == CONTINUATION <==> n == 0)
    && (kind == TEXT <==> n == 1)
    && (kind == BINARY <==> n == 2)
    && (kind == CLOSE <==> n == 8)
    && (kind == PING <==> n == 9)
    && (kind == PONG <==> n == 10)
    && (kind.RESERVED? <==> 3 <= n <= 7 || n >= 11)
    && (kind.RESERVED? ==> Value(kind.code) == n)
  }

  // Bytes 0 and 1, of a frame with this much payload at `at`.
  predicate Starts(b: Bytes, kind: Kind, fin: bool, masked: bool, at: nat)
    requires |b| >= 2
  {
    && HasOpcode(kind, Value(b[0]) % 16)
    && (fin <==> Value(b[0]) >= 128)
    && (masked <==> Value(b[1]) >= 128)
    && at == 2 + FieldSize(b) + (if masked then 4 else 0)
  }

  // The length: seven bits, or the two or eight bytes after them.
  function FieldSize(b: Bytes): nat
    requires |b| >= 2
  {
    if Value(b[1]) % 128 == 126 then 2 else if Value(b[1]) % 128 == 127 then 8 else 0
  }

  function LengthOf(b: Bytes): nat
    requires |b| >= 2 && |b| >= 2 + FieldSize(b)
  {
    if Value(b[1]) % 128 < 126 then Value(b[1]) % 128
    else if Value(b[1]) % 128 == 126 then Value(b[2]) * 256 + Value(b[3])
    else
      Value(b[2]) * 0x100_0000_0000_0000 + Value(b[3]) * 0x1_0000_0000_0000 + Value(b[4]) * 0x100_0000_0000 +
      Value(b[5]) * 0x1_0000_0000 + Value(b[6]) * 0x100_0000 + Value(b[7]) * 0x1_0000 + Value(b[8]) * 0x100 + Value(b[9])
  }

  // The payload, under the key in front of it if there is one.
  predicate Carries(b: Bytes, at: nat, masked: bool, payload: Bytes)
    requires at + |payload| <= |b| && (masked ==> at >= 4)
  {
    forall i | 0 <= i < |payload| :: b[at + i] == if masked then payload[i] ^ b[at - 4 + i % 4] else payload[i]
  }

  // ----- the bits of the first two bytes -----

  lemma LowBits(x: bv8)
    ensures Value(Opcode(x)) == Value(x) % 16
  {
  }

  lemma SevenBits(x: bv8)
    ensures Length7(x) == Value(x) % 128
  {
  }

  lemma FinBit(x: bv8)
    ensures Fin(x) <==> Value(x) >= 128
  {
  }

  lemma KindNumber(code: bv8)
    requires Value(code) < 16
    ensures HasOpcode(KindOf(code), Value(code))
  {
  }

  lemma LengthSizeIs(b: Bytes)
    requires |b| >= 2
    ensures LengthSize(b[1]) == FieldSize(b)
    ensures |b| >= 2 + FieldSize(b) ==> PayloadLength(b) == LengthOf(b)
    ensures |b| >= 2 + FieldSize(b) ==> (TooLong(b) <==> Value(b[1]) % 128 == 127 && Value(b[2]) >= 128)
    ensures HeaderSize(b) == 2 + FieldSize(b) + if Value(b[1]) >= 128 then 4 else 0
  {
    hide Masked, Length7, Value, Number;
    SevenBits(b[1]);
    TopBit(b[1]);
    if |b| >= 2 + FieldSize(b) {
      if FieldSize(b) == 2 { TwoBytes(b[2..4]); }
      if FieldSize(b) == 8 { EightBytes(b[2..10]); TopBit(b[2]); }
    }
  }

  // Which bytes begin with a frame, and which frame that is.
  lemma ParsedWire(b: Bytes)
    ensures Parse(b).Complete? <==>
      |b| >= 2 && |b| >= 2 + FieldSize(b) && !(Value(b[1]) % 128 == 127 && Value(b[2]) >= 128) &&
      |b| >= 2 + FieldSize(b) + (if Value(b[1]) >= 128 then 4 else 0) + LengthOf(b)
    ensures Parse(b).Complete? ==>
      var f, at, masked := Parse(b).frame, Parse(b).size - LengthOf(b), Value(b[1]) >= 128;
      |f.payload| == LengthOf(b) && at >= 2 && Starts(b, f.kind, f.fin, masked, at) && Carries(b, at, masked, f.payload)
  {
    hide Masked, Length7, LengthSize, Number, Opcode, Fin, KindOf, Value, TooLong, PayloadLength, HeaderSize, FieldSize, LengthOf, HasOpcode, Payload;
    if |b| >= 2 {
      LengthSizeIs(b);
      FinBit(b[0]);
      TopBit(b[1]);
      LowBits(b[0]);
      OpcodeIs(b[0]);
      if Parse(b).Complete? { PayloadIs(b); }
    }
  }

  lemma OpcodeIs(x: bv8)
    ensures HasOpcode(KindOf(Opcode(x)), Value(x) % 16)
  {
    hide Opcode, KindOf, HasOpcode, Value;
    LowBits(x);
    KindNumber(Opcode(x));
  }

  lemma PayloadIs(b: Bytes)
    requires |b| >= 2 && |b| >= 2 + LengthSize(b[1]) && |b| >= HeaderSize(b) && |b| >= HeaderSize(b) + PayloadLength(b)
    ensures |Payload(b)| == PayloadLength(b) && Carries(b, HeaderSize(b), Masked(b[1]), Payload(b))
  {
    hide Masked, LengthSize, PayloadLength;
    var h, p := HeaderSize(b), Payload(b);
    if Masked(b[1]) {
      forall i | 0 <= i < |p| ensures b[h + i] == p[i] ^ b[h - 4 + i % 4] {
        XorTwice(b[h + i], b[h - 4 + i % 4]);
      }
    }
  }

  // What is written: a frame with no reserved bits, in the shortest form of its length.
  lemma EncodedWire(f: Frame, mask: Option<Mask>)
    requires Known(f.kind) && |f.payload| < 0x8000_0000_0000_0000
    ensures var x, n := Encode(f, mask), |f.payload|;
      var at := |x| - n;
      |x| >= n + 2 && Starts(x, f.kind, f.fin, mask.Some?, at) && Carries(x, at, mask.Some?, f.payload) &&
      (mask.Some? ==> x[at - 4..at] == mask.value) &&
      LengthOf(x) == n && Value(x[0]) / 16 == (if f.fin then 8 else 0) &&
      FieldSize(x) == if n <= 125 then 0 else if n <= 65535 then 2 else 8
  {
    hide Masked, Length7, LengthSize, Number, Unmask, Opcode, Fin, KindOf, Value, Parse, Power, StartByte, Known, HasOpcode;
    hide FieldSize, LengthOf, LengthByte, LengthField, PayloadLength, TooLong, Carries;
    var x, h := Encode(f, mask), Header(f, mask.Some?);
    Powers();
    ParseUndoesEncode(f, mask, []);
    assert x + [] == x;
    ParsedWire(x);
    EncodeIs(f, mask);
    var behind := Behind(f.payload, mask);
    assert x == h + behind;
    HeaderReads(f, mask.Some?, behind);
    HeaderStarts(f, mask.Some?);
    StartTop(f.kind, f.fin);
    LengthSizeIs(x);
    TopBit(x[1]);
    FieldReads(|f.payload|);
    if mask.Some? { assert x[|h|..|h| + 4] == mask.value; }
  }

  lemma StartTop(kind: Kind, fin: bool)
    requires Known(kind)
    ensures Value(StartByte(kind, fin)) / 16 == if fin then 8 else 0
  {
  }
}
