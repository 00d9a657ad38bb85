/**
 WebSocket frames: XWebFrame_Parse of src/net/ws.c on a prefix of a byte stream, and what the
 frames of a stream mean as messages (sections 5.2 and 5.4 of RFC 6455).
 */
module WsFrames {
  import opened Options
  import opened ByteTools

  type Bytes = seq<bv8>

  datatype Kind = CONTINUATION | TEXT | BINARY | CLOSE | PING | PONG | RESERVED(code: bv8)
  datatype Frame = Frame(kind: Kind, fin: bool, payload: Bytes)

  // ======================= parsing =======================

  datatype Parsed = Complete(frame: Frame, size: nat) | Incomplete | Bad

  function KindOf(code: bv8): Kind {
    if code == 0 then CONTINUATION else if code == 1 then TEXT else if code == 2 then BINARY
    else if code == 8 then CLOSE else if code == 9 then PING else if code == 10 then PONG
    else RESERVED(code)
  }

  function Fin(b: bv8): bool { b & 0x80 != 0 }
  function Opcode(b: bv8): bv8 { b & 0x0f }
  function Masked(b: bv8): bool { b & 0x80 != 0 }
  function Length7(b: bv8): (n: nat) ensures n < 128 { (b & 0x7f) as nat }

  // The length field takes no, two or eight more bytes.
  function LengthSize(b: bv8): nat {
    if Length7(b) <= 125 then 0 else if Length7(b) == 126 then 2 else 8
  }

  function Unmask(payload: Bytes, mask: Bytes): (r: Bytes)
    requires |mask| == 4
    ensures |r| == |payload|
  {
    seq(|payload|, i requires 0 <= i < |payload| => payload[i] ^ mask[i % 4])
  }

  // A 64-bit length must not have its first bit set.
  function TooLong(b: Bytes): bool
    requires |b| >= 2
  {
    LengthSize(b[1]) == 8 && |b| >= 10 && Masked(b[2])
  }

  function PayloadLength(b: Bytes): nat
    requires |b| >= 2 && |b| >= 2 + LengthSize(b[1])
  {
    if LengthSize(b[1]) == 0 then Length7(b[1]) else Number(b[2..2 + LengthSize(b[1])])
  }

  function HeaderSize(b: Bytes): nat
    requires |b| >= 2
  {
    2 + LengthSize(b[1]) + (if Masked(b[1]) then 4 else 0)
  }

  function Payload(b: Bytes): Bytes
    requires |b| >= 2 && |b| >= HeaderSize(b) && |b| >= HeaderSize(b) + PayloadLength(b)
  {
    var h := HeaderSize(b);
    var raw := b[h..h + PayloadLength(b)];
    if Masked(b[1]) then Unmask(raw, b[h - 4..h]) else raw
  }

  function Parse(b: Bytes): (r: Parsed)
    ensures r.Complete? ==> 0 < r.size <= |b|
  {
    if |b| < 2 then Incomplete
    else if |b| < 2 + LengthSize(b[1]) then Incomplete
    else if TooLong(b) then Bad
    else if |b| < HeaderSize(b) then Incomplete
    else if |b| < HeaderSize(b) + PayloadLength(b) then Incomplete
    else Complete(Frame(KindOf(Opcode(b[0])), Fin(b[0]), Payload(b)), HeaderSize(b) + PayloadLength(b))
  }

  // A complete frame is the same whatever comes after it.
  lemma ParseStable(b: Bytes, more: Bytes)
    requires Parse(b).Complete?
    ensures Parse(b[..Parse(b).size] + more) == Parse(b)
  {
    var n := Parse(b).size;
    var c := b[..n] + more;
    hide Masked, Length7, LengthSize, Number, Unmask, Opcode, Fin, KindOf, Payload, PayloadLength;
    assert c[0] == b[0] && c[1] == b[1];
    HeaderStable(b, more, n);
    PayloadStable(b, more, n);
  }

  lemma PayloadStable(b: Bytes, more: Bytes, n: nat)
    requires 2 <= n <= |b| && n >= 2 + LengthSize(b[1]) && n == HeaderSize(b) + PayloadLength(b)
    ensures var c := b[..n] + more;
      c[1] == b[1] && |c| >= n && HeaderSize(c) == HeaderSize(b) && PayloadLength(c) == PayloadLength(b) && Payload(c) == Payload(b)
  {
    HeaderStable(b, more, n);
    hide Masked, LengthSize, Unmask, PayloadLength, HeaderSize;
    var h := HeaderSize(b);
    SliceStable(b, more, n, h, h + PayloadLength(b));
    if Masked(b[1]) {
      MaskedHeader(b);
      SliceStable(b, more, n, h - 4, h);
    }
  }

  lemma MaskedHeader(b: Bytes)
    requires |b| >= 2
    ensures Masked(b[1]) ==> HeaderSize(b) >= 4
  {
    hide Masked, LengthSize;
  }

  lemma SliceStable(b: Bytes, more: Bytes, n: nat, i: nat, j: nat)
    requires i <= j <= n <= |b|
    ensures (b[..n] + more)[i..j] == b[i..j]
  {
  }

  lemma HeaderStable(b: Bytes, more: Bytes, n: nat)
    requires 2 <= n <= |b| && n >= 2 + LengthSize(b[1])
    ensures var c := b[..n] + more;
      c[1] == b[1] && PayloadLength(c) == PayloadLength(b) && TooLong(c) == TooLong(b) && HeaderSize(c) == HeaderSize(b)
  {
    hide Masked, Length7, Number;
    var c := b[..n] + more;
    assert c[1] == b[1];
    assert c[2..2 + LengthSize(b[1])] == b[2..2 + LengthSize(b[1])];
    if LengthSize(b[1]) == 8 { assert c[2] == b[2]; }
  }

  // ----- a stream -----

  // The complete frames a stream begins with.
  function Decode(b: Bytes): seq<Frame>
    decreases |b|
  {
    match Parse(b)
    case Complete(frame, n) => [frame] + Decode(b[n..])
    case _ => []
  }

  function DecodedSize(b: Bytes): (n: nat)
    ensures n <= |b|
    decreases |b|
  {
    match Parse(b)
    case Complete(_, n) => n + DecodedSize(b[n..])
    case _ => 0
  }

  // Decoding in pieces: what is decoded stays decoded, and the rest is decoded as if alone.
  lemma {:induction false} DecodeAppend(b: Bytes, more: Bytes)
    requires DecodedSize(b) == |b|
    ensures Decode(b + more) == Decode(b) + Decode(more)
    ensures DecodedSize(b + more) == |b| + DecodedSize(more)
    decreases |b|
  {
    hide Parse;
    match Parse(b)
    case Complete(frame, n) =>
      ParseStable(b, b[n..] + more);
      assert b[..n] + (b[n..] + more) == b + more;
      assert (b + more)[n..] == b[n..] + more;
      DecodeAppend(b[n..], more);
    case _ =>
      assert b + more == more;
  }

  lemma DecodeOne(b: Bytes)
    requires Parse(b).Complete?
    ensures var n := Parse(b).size;
      Decode(b[..n]) == [Parse(b).frame] && DecodedSize(b[..n]) == n
  {
    hide Parse;
    var n := Parse(b).size;
    ParseStable(b, []);
    assert b[..n] + [] == b[..n];
    assert b[..n][n..] == [];
    ParseNothing();
  }

  lemma ParseNothing()
    ensures Parse([]) == Incomplete
  {
  }

  // ======================= messages =======================

  datatype Message = Message(kind: Kind, payload: Bytes)

  predicate IsControl(k: Kind) { k == PING || k == PONG || k == CLOSE }
  predicate IsData(k: Kind) { k == TEXT || k == BINARY }

  // What a receiver that knows the rules of fragmentation makes of frames one by one: the
  // messages delivered, the message in progress, and whether the rules were kept.
  datatype Receiver = Receiver(delivered: seq<Message>, open: Option<Message>, legal: bool)

  function Receive(r: Receiver, f: Frame): Receiver {
    if !r.legal then r
    else if IsControl(f.kind) then r.(delivered := r.delivered + [Message(f.kind, f.payload)])
    else
      match r.open
      case Some(m) =>
        if f.kind != CONTINUATION then r.(legal := false)
        else
          var m1 := Message(m.kind, m.payload + f.payload);
          if f.fin then r.(delivered := r.delivered + [m1], open := None) else r.(open := Some(m1))
      case None =>
        if !f.fin then
          if IsData(f.kind) then r.(open := Some(Message(f.kind, f.payload))) else r.(legal := false)
        else if f.kind == CONTINUATION then r.(legal := false)
        else r.(delivered := r.delivered + [Message(f.kind, f.payload)])
  }

  function ReceiveAll(r: Receiver, frames: seq<Frame>): Receiver
    decreases |frames|
  {
    if frames == [] then r else ReceiveAll(Receive(r, frames[0]), frames[1..])
  }

  const START := Receiver([], None, true)

  lemma {:induction false} ReceiveAppend(r: Receiver, a: seq<Frame>, b: seq<Frame>)
    ensures ReceiveAll(r, a + b) == ReceiveAll(ReceiveAll(r, a), b)
    decreases |a|
  {
    if a == [] {
      assert a + b == b;
    } else {
      assert (a + b)[1..] == a[1..] + b;
      ReceiveAppend(Receive(r, a[0]), a[1..], b);
    }
  }

  // ----- a limit on open messages -----

  // A receiver that also refuses a continuation with which the message in progress would grow past
  // the limit, and makes nothing of a frame it refuses nor of any after it.
  predicate Refuses(r: Receiver, f: Frame, limit: nat) {
    !Receive(r, f).legal || (r.open.Some? && f.kind == CONTINUATION && |r.open.value.payload| + |f.payload| > limit)
  }

  function Accept(r: Receiver, f: Frame, limit: nat): Receiver {
    if Refuses(r, f, limit) then r.(legal := false) else Receive(r, f)
  }

  function AcceptAll(r: Receiver, frames: seq<Frame>, limit: nat): Receiver
    decreases |frames|
  {
    if frames == [] then r else AcceptAll(Accept(r, frames[0], limit), frames[1..], limit)
  }

  lemma {:induction false} AcceptAppend(r: Receiver, a: seq<Frame>, b: seq<Frame>, limit: nat)
    ensures AcceptAll(r, a + b, limit) == AcceptAll(AcceptAll(r, a, limit), b, limit)
    decreases |a|
  {
    if a == [] {
      assert a + b == b;
    } else {
      assert (a + b)[1..] == a[1..] + b;
      AcceptAppend(Accept(r, a[0], limit), a[1..], b, limit);
    }
  }

  lemma AcceptOne(r: Receiver, f: Frame, limit: nat)
    ensures AcceptAll(r, [f], limit) == Accept(r, f, limit)
  {
    hide Accept;
    assert [f][1..] == [];
  }

  lemma {:induction false} AcceptNoMore(r: Receiver, frames: seq<Frame>, limit: nat)
    requires !r.legal
    ensures AcceptAll(r, frames, limit) == r
    decreases |frames|
  {
    if frames != [] {
      assert Accept(r, frames[0], limit) == r;
      AcceptNoMore(r, frames[1..], limit);
    }
  }

  // As long as nothing is refused the limit makes no difference, and in any case what is delivered
  // is the beginning of what a receiver without a limit delivers.
  lemma {:induction false} AcceptIsReceive(r: Receiver, frames: seq<Frame>, limit: nat)
    ensures AcceptAll(r, frames, limit).legal ==> AcceptAll(r, frames, limit) == ReceiveAll(r, frames)
    ensures AcceptAll(r, frames, limit).delivered <= ReceiveAll(r, frames).delivered
    decreases |frames|
  {
    if frames != [] {
      if Refuses(r, frames[0], limit) {
        AcceptNoMore(r.(legal := false), frames[1..], limit);
        ReceiveGrows(r, frames);
      } else {
        AcceptIsReceive(Receive(r, frames[0]), frames[1..], limit);
      }
    }
  }

  lemma {:induction false} ReceiveGrows(r: Receiver, frames: seq<Frame>)
    ensures r.delivered <= ReceiveAll(r, frames).delivered
    decreases |frames|
  {
    if frames != [] { ReceiveGrows(Receive(r, frames[0]), frames[1..]); }
  }

  // ----- what a sender means -----

  // A frame that is a message alone, a control frame, or a message in fragments, each after the
  // first preceded by any control frames.
  datatype Piece = Piece(controls: seq<Frame>, payload: Bytes)
  datatype Sending = Alone(frame: Frame) | Fragments(kind: Kind, first: Bytes, rest: seq<Piece>)

  predicate AllControls(frames: seq<Frame>) { forall i | 0 <= i < |frames| :: IsControl(frames[i].kind) }

  predicate Proper(s: Sending) {
    match s
    case Alone(f) => IsControl(f.kind) || (f.fin && f.kind != CONTINUATION)
    case Fragments(kind, _, rest) => IsData(kind) && rest != [] && forall i | 0 <= i < |rest| :: AllControls(rest[i].controls)
  }

  function PieceFrames(rest: seq<Piece>): seq<Frame>
    decreases |rest|
  {
    if rest == [] then []
    else rest[0].controls + [Frame(CONTINUATION, |rest| == 1, rest[0].payload)] + PieceFrames(rest[1..])
  }

  function FramesOf(s: Sending): seq<Frame> {
    match s
    case Alone(f) => [f]
    case Fragments(kind, first, rest) => [Frame(kind, false, first)] + PieceFrames(rest)
  }

  function Plain(frames: seq<Frame>): (r: seq<Message>)
    ensures |r| == |frames|
  {
    seq(|frames|, i requires 0 <= i < |frames| => Message(frames[i].kind, frames[i].payload))
  }

  // Control frames at once; the whole message under the first fragment's kind, in order, at its end.
  function PieceMessages(kind: Kind, so: Bytes, rest: seq<Piece>): seq<Message>
    decreases |rest|
  {
    if rest == [] then [Message(kind, so)]
    else Plain(rest[0].controls) + PieceMessages(kind, so + rest[0].payload, rest[1..])
  }

  function MessagesOf(s: Sending): seq<Message> {
    match s
    case Alone(f) => [Message(f.kind, f.payload)]
    case Fragments(kind, first, rest) => PieceMessages(kind, first, rest)
  }

  function AllFrames(ss: seq<Sending>): seq<Frame>
    decreases |ss|
  {
    if ss == [] then [] else FramesOf(ss[0]) + AllFrames(ss[1..])
  }

  function AllMessages(ss: seq<Sending>): seq<Message>
    decreases |ss|
  {
    if ss == [] then [] else MessagesOf(ss[0]) + AllMessages(ss[1..])
  }

  lemma {:induction false} ReceiveControls(r: Receiver, frames: seq<Frame>)
    requires r.legal && AllControls(frames)
    ensures ReceiveAll(r, frames) == r.(delivered := r.delivered + Plain(frames))
    decreases |frames|
  {
    if frames == [] {
      assert r.delivered + Plain(frames) == r.delivered;
    } else {
      ReceiveControls(Receive(r, frames[0]), frames[1..]);
      assert Plain(frames) == [Message(frames[0].kind, frames[0].payload)] + Plain(frames[1..]);
      assert r.delivered + Plain(frames) == (r.delivered + [Message(frames[0].kind, frames[0].payload)]) + Plain(frames[1..]);
    }
  }

  lemma {:induction false} ReceivePieces(r: Receiver, kind: Kind, so: Bytes, rest: seq<Piece>)
    requires r.legal && r.open == Some(Message(kind, so)) && rest != []
    requires forall i | 0 <= i < |rest| :: AllControls(rest[i].controls)
    ensures ReceiveAll(r, PieceFrames(rest)) ==
      Receiver(r.delivered + PieceMessages(kind, so, rest), None, true)
    decreases |rest|
  {
    hide Plain;
    var controls, last := rest[0].controls, Frame(CONTINUATION, |rest| == 1, rest[0].payload);
    var r1 := r.(delivered := r.delivered + Plain(controls));
    ReceiveControls(r, controls);
    ReceiveAppend(r, controls, [last]);
    ReceiveAppend(r, controls + [last], PieceFrames(rest[1..]));
    var r2 := Receive(r1, last);
    ReceiveOne(r1, last);
    if |rest| > 1 {
      ReceivePieces(r2, kind, so + rest[0].payload, rest[1..]);
      assert r1.delivered + PieceMessages(kind, so + rest[0].payload, rest[1..]) == r.delivered + PieceMessages(kind, so, rest);
    } else {
      assert rest[1..] == [] && PieceFrames(rest[1..]) == [];
      assert r1.delivered + [Message(kind, so + rest[0].payload)] == r.delivered + PieceMessages(kind, so, rest);
    }
  }

  lemma ReceiveOne(r: Receiver, f: Frame)
    ensures ReceiveAll(r, [f]) == Receive(r, f)
  {
    assert [f][1..] == [];
  }

  lemma ReceiveSending(r: Receiver, s: Sending)
    requires r.legal && r.open == None && Proper(s)
    ensures ReceiveAll(r, FramesOf(s)) == Receiver(r.delivered + MessagesOf(s), None, true)
  {
    match s
    case Alone(f) => ReceiveOne(r, f);
    case Fragments(kind, first, rest) =>
      var f := Frame(kind, false, first);
      ReceiveAppend(r, [f], PieceFrames(rest));
      ReceiveOne(r, f);
      ReceivePieces(Receive(r, f), kind, first, rest);
  }

  // However the messages were cut into fragments and wherever control frames came in between,
  // the receiver delivers exactly the messages sent.
  lemma {:induction false} ReceiverUndoesFragmentation(r: Receiver, ss: seq<Sending>)
    requires r.legal && r.open == None && forall i | 0 <= i < |ss| :: Proper(ss[i])
    ensures ReceiveAll(r, AllFrames(ss)) == Receiver(r.delivered + AllMessages(ss), None, true)
    decreases |ss|
  {
    hide MessagesOf, FramesOf, Proper;
    if ss == [] {
      assert r.delivered + AllMessages(ss) == r.delivered;
    } else {
      ReceiveSending(r, ss[0]);
      ReceiveAppend(r, FramesOf(ss[0]), AllFrames(ss[1..]));
      var r1 := Receiver(r.delivered + MessagesOf(ss[0]), None, true);
      ReceiverUndoesFragmentation(r1, ss[1..]);
      assert r1.delivered + AllMessages(ss[1..]) == r.delivered + AllMessages(ss);
    }
  }

  // ----- under the limit -----

  function PiecesSize(rest: seq<Piece>): nat
    decreases |rest|
  {
    if rest == [] then 0 else |rest[0].payload| + PiecesSize(rest[1..])
  }

  // The size of a message to be put together from fragments.
  function Size(s: Sending): nat {
    match s
    case Alone(_) => 0
    case Fragments(_, first, rest) => |first| + PiecesSize(rest)
  }

  lemma {:induction false} AcceptControls(r: Receiver, frames: seq<Frame>, limit: nat)
    requires r.legal && AllControls(frames)
    ensures AcceptAll(r, frames, limit) == ReceiveAll(r, frames)
    decreases |frames|
  {
    if frames != [] { AcceptControls(Receive(r, frames[0]), frames[1..], limit); }
  }

  lemma {:induction false} AcceptPieces(r: Receiver, kind: Kind, so: Bytes, rest: seq<Piece>, limit: nat)
    requires r.legal && r.open == Some(Message(kind, so)) && rest != []
    requires forall i | 0 <= i < |rest| :: AllControls(rest[i].controls)
    requires |so| + PiecesSize(rest) <= limit
    ensures AcceptAll(r, PieceFrames(rest), limit).legal
    decreases |rest|
  {
    hide Plain;
    var controls, last := rest[0].controls, Frame(CONTINUATION, |rest| == 1, rest[0].payload);
    var r1 := r.(delivered := r.delivered + Plain(controls));
    ReceiveControls(r, controls);
    AcceptControls(r, controls, limit);
    AcceptAppend(r, controls, [last], limit);
    AcceptAppend(r, controls + [last], PieceFrames(rest[1..]), limit);
    AcceptOne(r1, last, limit);
    var r2 := Accept(r1, last, limit);
    if |rest| > 1 {
      AcceptPieces(r2, kind, so + rest[0].payload, rest[1..], limit);
    } else {
      assert rest[1..] == [] && PieceFrames(rest[1..]) == [];
    }
  }

  lemma AcceptSending(r: Receiver, s: Sending, limit: nat)
    requires r.legal && r.open == None && Proper(s) && Size(s) <= limit
    ensures AcceptAll(r, FramesOf(s), limit) == Receiver(r.delivered + MessagesOf(s), None, true)
  {
    ReceiveSending(r, s);
    AcceptIsReceive(r, FramesOf(s), limit);
    match s
    case Alone(f) => AcceptOne(r, f, limit);
    case Fragments(kind, first, rest) =>
      var f := Frame(kind, false, first);
      AcceptAppend(r, [f], PieceFrames(rest), limit);
      AcceptOne(r, f, limit);
      AcceptPieces(Receive(r, f), kind, first, rest, limit);
  }

  // A receiver with a limit delivers messages that keep it just the same.
  lemma {:induction false} AcceptsFragmentation(r: Receiver, ss: seq<Sending>, limit: nat)
    requires r.legal && r.open == None && forall i | 0 <= i < |ss| :: Proper(ss[i]) && Size(ss[i]) <= limit
    ensures AcceptAll(r, AllFrames(ss), limit) == Receiver(r.delivered + AllMessages(ss), None, true)
    decreases |ss|
  {
    hide MessagesOf, FramesOf, Proper, Size;
    if ss == [] {
      assert r.delivered + AllMessages(ss) == r.delivered;
    } else {
      AcceptSending(r, ss[0], limit);
      AcceptAppend(r, FramesOf(ss[0]), AllFrames(ss[1..]), limit);
      var r1 := Receiver(r.delivered + MessagesOf(ss[0]), None, true);
      AcceptsFragmentation(r1, ss[1..], limit);
      assert r1.delivered + AllMessages(ss[1..]) == r.delivered + AllMessages(ss);
    }
  }

  // ----- and nothing else is accepted -----

  lemma {:induction false} IllegalStays(r: Receiver, frames: seq<Frame>)
    requires !r.legal
    ensures ReceiveAll(r, frames) == r
    decreases |frames|
  {
    if frames != [] { IllegalStays(r, frames[1..]); }
  }

  // The rest of a message in progress, and what follows it.
  lemma {:induction false} Explain(r: Receiver, frames: seq<Frame>) returns (rest: seq<Piece>, tail: seq<Frame>, r1: Receiver)
    requires r.legal && r.open.Some? && ReceiveAll(r, frames).legal && ReceiveAll(r, frames).open == None
    ensures frames == PieceFrames(rest) + tail && rest != [] && |tail| < |frames|
    ensures forall i | 0 <= i < |rest| :: AllControls(rest[i].controls)
    ensures r1.legal && r1.open == None && ReceiveAll(r1, tail) == ReceiveAll(r, frames)
    decreases |frames|
  {
    hide PieceFrames;
    var f := frames[0];
    var next := Receive(r, f);
    if !next.legal { IllegalStays(next, frames[1..]); }
    assert frames == [f] + frames[1..];
    if IsControl(f.kind) {
      rest, tail, r1 := Explain(next, frames[1..]);
      assert frames == [f] + PieceFrames(rest) + tail;
      var first := Piece([f] + rest[0].controls, rest[0].payload);
      PiecePrepend(f, rest);
      rest := [first] + rest[1..];
    } else if f.fin {
      rest, tail, r1 := [Piece([], f.payload)], frames[1..], next;
      PieceLast(f);
    } else {
      rest, tail, r1 := Explain(next, frames[1..]);
      PieceFront(f, rest);
      assert frames == [f] + PieceFrames(rest) + tail;
      rest := [Piece([], f.payload)] + rest;
    }
  }

  lemma PieceLast(f: Frame)
    requires f.kind == CONTINUATION && f.fin
    ensures PieceFrames([Piece([], f.payload)]) == [f]
  {
    assert [Piece([], f.payload)][1..] == [];
  }

  lemma PieceFront(f: Frame, rest: seq<Piece>)
    requires f.kind == CONTINUATION && !f.fin && rest != []
    ensures PieceFrames([Piece([], f.payload)] + rest) == [f] + PieceFrames(rest)
  {
    assert ([Piece([], f.payload)] + rest)[1..] == rest;
  }

  lemma PiecePrepend(f: Frame, rest: seq<Piece>)
    requires rest != []
    ensures PieceFrames([Piece([f] + rest[0].controls, rest[0].payload)] + rest[1..]) == [f] + PieceFrames(rest)
  {
    hide PieceFrames;
    var more := [Piece([f] + rest[0].controls, rest[0].payload)] + rest[1..];
    assert more[1..] == rest[1..];
    PieceUnfold(rest);
    PieceUnfold(more);
    Assoc([f], rest[0].controls, [Frame(CONTINUATION, |rest| == 1, rest[0].payload)], PieceFrames(rest[1..]));
  }

  lemma PieceUnfold(rest: seq<Piece>)
    requires rest != []
    ensures PieceFrames(rest) == rest[0].controls + [Frame(CONTINUATION, |rest| == 1, rest[0].payload)] + PieceFrames(rest[1..])
  {
  }

  lemma Assoc<T>(a: seq<T>, b: seq<T>, c: seq<T>, d: seq<T>)
    ensures (a + b) + c + d == a + (b + c + d)
  {
  }

  // A stream of frames that breaks no rule and leaves no message open is that of some sending.
  lemma {:induction false} ReceivedIsSent(r: Receiver, frames: seq<Frame>) returns (ss: seq<Sending>)
    requires r.legal && r.open == None && ReceiveAll(r, frames).legal && ReceiveAll(r, frames).open == None
    ensures AllFrames(ss) == frames && forall i | 0 <= i < |ss| :: Proper(ss[i])
    decreases |frames|
  {
    if frames == [] {
      ss := [];
    } else {
      var f := frames[0];
      var next := Receive(r, f);
      if !next.legal { IllegalStays(next, frames[1..]); }
      var s, tail, r1;
      if next.open == None {
        s, tail, r1 := Alone(f), frames[1..], next;
        assert frames == [f] + frames[1..];
      } else {
        var rest;
        rest, tail, r1 := Explain(next, frames[1..]);
        s := Fragments(f.kind, f.payload, rest);
        assert frames == [Frame(f.kind, false, f.payload)] + (PieceFrames(rest) + tail);
        assert frames == FramesOf(s) + tail;
      }
      var others := ReceivedIsSent(r1, tail);
      ss := [s] + others;
      assert ss[1..] == others;
    }
  }
}
