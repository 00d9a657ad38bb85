/**
 WebSocket frames as XWebFrame_Create of src/net/ws.c builds them (section 5.2 of RFC 6455), that
 parsing gives back the frame, and so that a session at the other end delivers the messages whose
 fragments were sent to it.
 */
module WsEncode {
  import opened Options
  import opened ByteTools
  import opened WsFrames
  import M = WsModel
  import T = WsTheorems
  import V = WsLiveness

  type Mask = m: Bytes | |m| == 4 witness [0, 0, 0, 0]

  // XWS_OpCode
  function Code(kind: Kind): bv8 {
    match kind
    case CONTINUATION => 0
    case TEXT => 1
    case BINARY => 2
    case CLOSE => 8
    case PING => 9
    case PONG => 10
    case RESERVED(code) => code
  }

  // The sixteen types of frame.
  predicate Known(kind: Kind) {
    kind.RESERVED? ==> 3 <= kind.code <= 7 || 11 <= kind.code <= 15
  }

  function StartByte(kind: Kind, fin: bool): bv8 { if fin then 0x80 | Code(kind) else Code(kind) }

  function LengthByte(n: nat): bv8 { if n <= 125 then Byte(n) else if n <= 65535 then 126 else 127 }
  function WithMaskBit(b: bv8): bv8 { b | 0x80 }

  // A number in k bytes, most significant first.
  function NumberBytes(n: nat, k: nat): (r: Bytes)
    ensures |r| == k
  {
    if k == 0 then [] else NumberBytes(n / 256, k - 1) + [Byte(n % 256)]
  }

  function LengthField(n: nat): Bytes {
    if n <= 125 then [] else NumberBytes(n, if n <= 65535 then 2 else 8)
  }

  // XWS_CreateFrame
  function Created(f: Frame): Bytes {
    [StartByte(f.kind, f.fin), LengthByte(|f.payload|)] + LengthField(|f.payload|) + f.payload
  }

  // XWebFrame_Create: masked, when asked for, under the key drawn for the frame.
  function Encode(f: Frame, mask: Option<Mask>): Bytes {
    match mask
    case None => Created(f)
    case Some(key) =>
      [StartByte(f.kind, f.fin), WithMaskBit(LengthByte(|f.payload|))] + LengthField(|f.payload|) + key + Unmask(f.payload, key)
  }

  // ======================= reading back =======================

  lemma StartReads(kind: Kind, fin: bool)
    requires Known(kind)
    ensures Fin(StartByte(kind, fin)) == fin && KindOf(Opcode(StartByte(kind, fin))) == kind
  {
  }

  lemma MaskBit(b: bv8)
    requires !Masked(b)
    ensures Masked(WithMaskBit(b)) && Length7(WithMaskBit(b)) == Value(b) == Length7(b)
  {
  }

  lemma TopBit(b: bv8)
    ensures Masked(b) <==> Value(b) >= 128
  {
  }

  lemma LengthByteReads(n: nat)
    ensures !Masked(LengthByte(n))
    ensures Length7(LengthByte(n)) == if n <= 125 then n else if n <= 65535 then 126 else 127
  {
    hide Masked, Length7, Value, Byte;
    var b := LengthByte(n);
    var v := if n <= 125 then n else if n <= 65535 then 126 else 127;
    assert Value(b) == v by {
      ByteIs(v, b);
      Fixed();
    }
    TopBit(b);
    MaskBit(b);
  }

  lemma Fixed()
    ensures Value(126) == 126 && Value(127) == 127
  {
  }

  lemma {:induction false} NumberReads(n: nat, k: nat)
    requires n < Power(k)
    ensures Number(NumberBytes(n, k)) == n
  {
    hide Byte;
    if k > 0 {
      NumberReads(n / 256, k - 1);
      var b := NumberBytes(n, k);
      assert b[..k - 1] == NumberBytes(n / 256, k - 1);
      ByteIs(n % 256, Byte(n % 256));
      NumberNext(b);
    }
  }

  // ----- the header -----

  // What comes before the key and the payload.
  function Header(f: Frame, mask: bool): (r: Bytes)
    ensures |r| >= 2
  {
    var b := LengthByte(|f.payload|);
    [StartByte(f.kind, f.fin), if mask then WithMaskBit(b) else b] + LengthField(|f.payload|)
  }

  lemma FieldReads(n: nat)
    requires n < Power(8)
    ensures var field := LengthField(n);
      |field| == (if n <= 125 then 0 else if n <= 65535 then 2 else 8) &&
      (n > 125 ==> Number(field) == n) &&
      (n > 65535 ==> (Masked(field[0]) <==> n >= Power(8) / 2))
  {
    hide Masked, Value, Number, NumberBytes, Power;
    Powers();
    if n > 65535 {
      NumberReads(n, 8);
      var field := NumberBytes(n, 8);
      FirstByte(field);
      TopBit(field[0]);
    } else if n > 125 {
      NumberReads(n, 2);
    }
  }

  // The parser reads the header as it was written, whatever follows.
  lemma HeaderReads(f: Frame, mask: bool, rest: Bytes)
    requires |f.payload| < Power(8)
    ensures var n, b := |f.payload|, Header(f, mask) + rest;
      Masked(b[1]) == mask && 2 + LengthSize(b[1]) == |Header(f, mask)| && PayloadLength(b) == n &&
      HeaderSize(b) == |Header(f, mask)| + (if mask then 4 else 0) && (TooLong(b) <==> n >= Power(8) / 2)
  {
    hide Masked, Length7, Number, Power, LengthByte, LengthField, StartByte, WithMaskBit;
    var n, h, field := |f.payload|, Header(f, mask), LengthField(|f.payload|);
    var b := h + rest;
    LengthByteReads(n);
    MaskBit(LengthByte(n));
    FieldReads(n);
    Powers();
    assert b[1] == h[1];
    assert b[2..2 + |field|] == field;
    if n > 65535 { assert b[2] == field[0]; }
  }

  // XWebFrame_Parse gives back what XWebFrame_Create built, up to where it ends: unless the
  // length has its first bit set, which the format excludes.
  lemma ParseUndoesEncode(f: Frame, mask: Option<Mask>, more: Bytes)
    requires Known(f.kind) && |f.payload| < Power(8)
    ensures Parse(Encode(f, mask) + more) == if |f.payload| < Power(8) / 2 then Complete(f, |Encode(f, mask)|) else Bad
  {
    hide Masked, LengthSize, Number, Unmask, Fin, Opcode, KindOf, StartByte, Header, HeaderSize, PayloadLength, Payload, TooLong, Power, Behind;
    var h, behind := Header(f, mask.Some?), Behind(f.payload, mask);
    EncodeIs(f, mask);
    var b := Encode(f, mask) + more;
    assert b == h + (behind + more);
    HeaderReads(f, mask.Some?, behind + more);
    StartReads(f.kind, f.fin);
    assert b[0] == h[0] == StartByte(f.kind, f.fin) by { HeaderStarts(f, mask.Some?); }
    hide Encode;
    if |f.payload| < Power(8) / 2 { PayloadReads(h, f.payload, mask, more); }
  }

  // The key, if there is one, and the payload under it.
  function Behind(payload: Bytes, mask: Option<Mask>): (r: Bytes)
    ensures |r| == |payload| + if mask.Some? then 4 else 0
  {
    match mask case None => payload case Some(key) => key + Unmask(payload, key)
  }

  lemma PayloadReads(h: Bytes, payload: Bytes, mask: Option<Mask>, more: Bytes)
    requires |h| >= 2
    requires var b := h + (Behind(payload, mask) + more);
      2 + LengthSize(b[1]) == |h| && !TooLong(b) && Masked(b[1]) == mask.Some? &&
      HeaderSize(b) == |h| + (if mask.Some? then 4 else 0) && PayloadLength(b) == |payload|
    ensures Payload(h + (Behind(payload, mask) + more)) == payload
  {
    hide Masked, Number, Unmask, HeaderSize, PayloadLength, TooLong;
    var b, n := h + (Behind(payload, mask) + more), |payload|;
    if mask.Some? {
      var key := mask.value;
      assert b[|h|..|h| + 4] == key;
      assert b[|h| + 4..|h| + 4 + n] == Unmask(payload, key);
      UnmaskTwice(payload, key);
    } else {
      assert b[|h|..|h| + n] == payload;
    }
  }

  lemma HeaderStarts(f: Frame, mask: bool)
    ensures Header(f, mask)[0] == StartByte(f.kind, f.fin)
  {
  }

  lemma EncodeIs(f: Frame, mask: Option<Mask>)
    ensures Encode(f, mask) == Header(f, mask.Some?) + Behind(f.payload, mask)
  {
    hide StartByte, LengthByte, LengthField, WithMaskBit, Unmask;
  }

  lemma UnmaskTwice(payload: Bytes, mask: Mask)
    ensures Unmask(Unmask(payload, mask), mask) == payload
  {
    forall i | 0 <= i < |payload| ensures Unmask(Unmask(payload, mask), mask)[i] == payload[i] {
      XorTwice(payload[i], mask[i % 4]);
    }
  }

  // ======================= building a frame =======================

  // XWS_CreateFrame
  method CreateFrame(f: Frame) returns (frame: array<bv8>, size: nat)
    ensures fresh(frame) && size < frame.Length && frame[..size] == Created(f) && frame[size] == 0
  {
    hide Byte, Code, NumberBytes;
    var n := |f.payload|;
    var lengthByte: bv8, header := 127, 10;
    if n <= 125 {
      lengthByte, header := Byte(n), 2;
    } else if n <= 65535 {
      lengthByte, header := 126, 4;
    }
    size := header + n;
    frame := new bv8[size + 1];
    frame[0], frame[1] := StartByte(f.kind, f.fin), lengthByte;
    if header == 4 {
      Copy(frame, 2, NumberBytes(n, 2));
    } else if header == 10 {
      Copy(frame, 2, NumberBytes(n, 8));
    }
    assert frame[..header] == Header(f, false);
    Copy(frame, header, f.payload);
    frame[size] := 0;
    EncodeIs(f, None);
    assert frame[..size] == Header(f, false) + f.payload;
  }

  // XWebFrame_Mask on a frame just built: the key goes in after the header, and the payload is
  // changed in place.
  method MaskFrame(f: Frame, frame: array<bv8>, size: nat, key: Mask) returns (masked: array<bv8>, newSize: nat)
    requires size < frame.Length && frame[..size] == Created(f)
    ensures fresh(masked) && newSize < masked.Length && masked[..newSize] == Encode(f, Some(key))
  {
    hide *;
    var header := size - |f.payload|;
    newSize := size + 4;
    CreatedIs(f);
    ghost var h := Header(f, false);
    assert frame[..header] == h && frame[header..size] == f.payload by { assert frame[..size] == h + f.payload; }
    masked := InsertKey(frame, size, header, key);
    ghost var before := masked[..];
    masked[1] := WithMaskBit(masked[1]);
    assert masked[..] == before[1 := WithMaskBit(before[1])];
    XorPayload(masked, header + 4, |f.payload|, key);
    MaskedIs(f, key, before, masked[..], header, newSize);
  }

  lemma MaskedIs(f: Frame, key: Mask, before: Bytes, after: Bytes, header: nat, size: nat)
    requires 2 <= header && size == header + 4 + |f.payload| < |before| == |after|
    requires before[..header] == Header(f, false) && before[header..header + 4] == key && before[header + 4..size] == f.payload
    requires after[..header + 4] == before[1 := WithMaskBit(before[1])][..header + 4]
    requires after[header + 4..size] == Unmask(f.payload, key)
    ensures after[..size] == Encode(f, Some(key))
  {
    assert Behind(f.payload, Some(key)) == key + Unmask(f.payload, key);
    hide *;
    CreatedIs(f);
    EncodeIs(f, Some(key));
    assert before[1] == before[..header][1];
    assert before[1 := WithMaskBit(before[1])][..header + 4] == before[..header][1 := WithMaskBit(before[1])] + before[header..header + 4];
    assert after[..size] == after[..header + 4] + after[header + 4..size];
    assert Header(f, true) + key + Unmask(f.payload, key) == Header(f, true) + (key + Unmask(f.payload, key));
  }

  // XByteBuffer_Insert of the key.
  method InsertKey(frame: array<bv8>, size: nat, header: nat, key: Mask) returns (masked: array<bv8>)
    requires header <= size < frame.Length
    ensures fresh(masked) && masked.Length == size + 5
    ensures masked[..header] == frame[..header] && masked[header..header + 4] == key
    ensures masked[header + 4..size + 4] == frame[header..size]
  {
    masked := new bv8[size + 5](_ => 0);
    Copy(masked, 0, frame[..header]);
    Copy(masked, header, key);
    Copy(masked, header + 4, frame[header..size]);
  }

  // The loop that masks and unmasks: n bytes from `at` on.
  method XorPayload(buf: array<bv8>, at: nat, n: nat, key: Mask)
    requires at + n <= buf.Length
    modifies buf
    ensures buf[..at] == old(buf[..at]) && buf[at + n..] == old(buf[at + n..])
    ensures buf[at..at + n] == Unmask(old(buf[at..at + n]), key)
  {
    ghost var before := buf[..];
    for i := 0 to n
      invariant forall k | 0 <= k < buf.Length ::
        buf[k] == if at <= k < at + i then before[k] ^ key[(k - at) % 4] else before[k]
    {
      buf[at + i] := buf[at + i] ^ key[i % 4];
    }
  }

  lemma CreatedIs(f: Frame)
    ensures Created(f) == Header(f, false) + f.payload
    ensures Header(f, true) == Header(f, false)[1 := WithMaskBit(Header(f, false)[1])]
  {
    hide StartByte, LengthByte, LengthField, WithMaskBit;
  }

  // ======================= streams =======================

  // Frames written one after the other, each under its own key or none.
  function EncodeAll(frames: seq<Frame>, masks: nat -> Option<Mask>, at: nat): Bytes
    decreases |frames|
  {
    if frames == [] then [] else Encode(frames[0], masks(at)) + EncodeAll(frames[1..], masks, at + 1)
  }

  ghost predicate Sendable(f: Frame) { Known(f.kind) && |f.payload| < Power(8) / 2 }

  lemma {:induction false} DecodeUndoesEncode(frames: seq<Frame>, masks: nat -> Option<Mask>, at: nat)
    requires forall i | 0 <= i < |frames| :: Sendable(frames[i])
    ensures Decode(EncodeAll(frames, masks, at)) == frames
    ensures DecodedSize(EncodeAll(frames, masks, at)) == |EncodeAll(frames, masks, at)|
    decreases |frames|
  {
    hide Parse, Encode, Known, Power;
    if frames == [] {
      ParseNothing();
    } else {
      var b, rest := Encode(frames[0], masks(at)), EncodeAll(frames[1..], masks, at + 1);
      assert Sendable(frames[0]);
      ParseUndoesEncode(frames[0], masks(at), rest);
      DecodeUndoesEncode(frames[1..], masks, at + 1);
      assert (b + rest)[|b|..] == rest;
    }
  }

  // ----- a stream that has not all arrived -----

  // A frame not yet complete is never taken for anything else.
  lemma PrefixIncomplete(b: Bytes, k: nat)
    requires Parse(b).Complete? && k < Parse(b).size
    ensures Parse(b[..k]) == Incomplete
  {
    hide Masked, Length7, LengthSize, Number, Unmask, Opcode, Fin, KindOf, Payload;
    var n := Parse(b).size;
    var c := b[..k];
    if k >= 2 {
      assert c[1] == b[1];
      if k >= 2 + LengthSize(b[1]) {
        HeaderStable(b, [], k);
        assert b[..k] + [] == c;
      }
    }
  }

  // The beginning of a stream of frames: whole frames, and the beginning of the next.
  lemma {:induction false} DecodePrefix(frames: seq<Frame>, masks: nat -> Option<Mask>, at: nat, b: Bytes, limit: nat)
    requires forall i | 0 <= i < |frames| :: Sendable(frames[i])
    requires forall i | 0 <= i < |frames| :: |Encode(frames[i], masks(at + i))| <= limit
    requires b <= EncodeAll(frames, masks, at)
    ensures Decode(b) <= frames
    ensures var rest := b[DecodedSize(b)..]; Parse(rest) == Incomplete && |rest| <= limit
    decreases |frames|
  {
    hide Parse, Encode, Known, Power;
    ParseNothing();
    if frames != [] {
      var e, rest := Encode(frames[0], masks(at)), EncodeAll(frames[1..], masks, at + 1);
      assert Sendable(frames[0]) && |Encode(frames[0], masks(at + 0))| <= limit;
      ParseUndoesEncode(frames[0], masks(at), rest);
      if |b| < |e| {
        PrefixIncomplete(e + rest, |b|);
        assert (e + rest)[..|b|] == b;
      } else {
        var b1 := b[|e|..];
        assert b == e + b1;
        ParseUndoesEncode(frames[0], masks(at), b1);
        assert b1 <= rest by { assert (e + rest)[|e|..|b|] == b1; }
        forall i | 0 <= i < |frames[1..]| ensures |Encode(frames[1..][i], masks(at + 1 + i))| <= limit {
          assert |Encode(frames[i + 1], masks(at + (i + 1)))| <= limit;
        }
        DecodePrefix(frames[1..], masks, at + 1, b1, limit);
        assert b[|e|..][DecodedSize(b1)..] == b[DecodedSize(b)..];
      }
    }
  }

  // ======================= from end to end =======================

  // From a sender's messages to the callback of the session at the other end: cut into fragments
  // in any way, built into frames, masked or not, and received in any pieces. As long as what has
  // arrived is the beginning of that stream the session lives; and once all of it has, its callback
  // has been told exactly the messages sent. Messages and frames must fit the session's limit.
  lemma SentMessagesArrive(c: M.Config, role: M.Role, events: seq<M.Event>, ss: seq<Sending>, masks: nat -> Option<Mask>)
    requires V.Obliges(c) && (forall i | 0 <= i < |events| :: V.Smooth(events[i]))
    requires forall i | 0 <= i < |ss| :: Proper(ss[i]) && Size(ss[i]) <= c.rxSize
    requires forall i | 0 <= i < |AllFrames(ss)| :: Sendable(AllFrames(ss)[i])
    requires forall i | 0 <= i < |AllFrames(ss)| :: |Encode(AllFrames(ss)[i], masks(0 + i))| <= c.rxSize
    ensures var t := M.Run(c, M.Fresh(role), events);
      var sent := EncodeAll(AllFrames(ss), masks, 0);
      t.done && t.stream + t.rx <= sent ==>
        t.alive &&
        (t.stream + t.rx == sent && T.Settled(t) ==> T.Told(t.told) == AllMessages(ss) && t.frag == None && t.ws == [])
  {
    hide M.Run, AllFrames, AllMessages, Proper, Sendable, EncodeAll, Decode, Size, V.Smooth, T.Settled, AcceptAll, T.Good, T.Told;
    var t := M.Run(c, M.Fresh(role), events);
    var frames, b := AllFrames(ss), t.stream + t.rx;
    T.FreshGood(c, role);
    T.RunGood(c, M.Fresh(role), events);
    if t.done && b <= EncodeAll(frames, masks, 0) {
      DecodePrefix(frames, masks, 0, b, c.rxSize);
      V.DeliveredSoFar(c, t);
      TailOf(t.stream, t.rx, c.rxSize);
      BeginningAccepted(ss, Decode(b), c.rxSize);
      V.DeliversExactly(c, role, events);
      if b == EncodeAll(frames, masks, 0) {
        DecodeUndoesEncode(frames, masks, 0);
        V.DeliversWhatWasSent(c, role, events, ss);
      }
    }
  }

  // The beginning of a fragmentation is accepted.
  lemma BeginningAccepted(ss: seq<Sending>, some: seq<Frame>, limit: nat)
    requires forall i | 0 <= i < |ss| :: Proper(ss[i]) && Size(ss[i]) <= limit
    requires some <= AllFrames(ss)
    ensures AcceptAll(START, some, limit).legal
  {
    hide AllFrames, AcceptAll, Proper, Size;
    AcceptsFragmentation(START, ss, limit);
    var more := AllFrames(ss)[|some|..];
    assert AllFrames(ss) == some + more;
    AcceptAppend(START, some, more, limit);
    if !AcceptAll(START, some, limit).legal { AcceptNoMore(AcceptAll(START, some, limit), more, limit); }
  }

  // What is left over of a stream is what is left over of rx.
  lemma TailOf(stream: Bytes, rx: Bytes, limit: nat)
    requires DecodedSize(stream + rx) == |stream| + DecodedSize(rx)
    requires var rest := (stream + rx)[DecodedSize(stream + rx)..]; Parse(rest) == Incomplete && |rest| <= limit
    ensures !V.RefusesTail(rx, limit)
  {
    hide Parse;
    if !Parse(rx).Complete? { assert (stream + rx)[|stream|..] == rx; }
  }
}
