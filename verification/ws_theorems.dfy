/**
 What every run of a WebSocket session keeps: no READ before the handshake is done, a handshake
 that is done only when it may be, and delivered messages that are the reassembly of the frames
 received.
 */
module WsTheorems {
  import opened Options
  import opened WsFrames
  import opened WsModel

  function Told(told: seq<Read>): (r: seq<Message>)
    ensures |r| == |told|
  {
    seq(|told|, i requires 0 <= i < |told| => told[i].message)
  }

  // The message in progress.
  function Open(s: Session): Option<Message> {
    match s.frag
    case None => None
    case Some(kind) => Some(Message(kind, s.ws))
  }

  // The handshake flags, and what they mean for either side.
  ghost predicate Flags(c: Config, s: Session, go: bool) {
    && !(s.start && s.done)
    && (forall i | 0 <= i < |s.told| :: s.told[i].done)
    && AnswerOk(s)
    && (s.role == Peer && s.done ==> s.answer.Some? && s.answer.value.start + |s.answer.value.bytes| <= |s.sent|)
    && (s.role == Peer && go && s.start ==> s.answer.Some?)
    && (s.role == Client && s.done ==> Upgraded(c, s.received))
  }

  // The bytes received begin with a complete response that upgrades, with a key not refused.
  ghost predicate Upgraded(c: Config, received: Bytes) {
    exists k | 0 <= k <= |received| :: Upgrades(c, c.http(received[..k]))
  }

  predicate Upgrades(c: Config, h: Http) {
    h.HttpComplete? && h.upgrade && h.key != Wrong && !(h.key == Missing && !c.allowMissing)
  }

  // The 101 answer is in the output where it was put.
  ghost predicate AnswerOk(s: Session) {
    s.answer.Some? ==>
      var a := s.answer.value;
      a.start + |a.bytes| <= |s.sent| + |s.tx| && (s.sent + s.tx)[a.start..a.start + |a.bytes|] == a.bytes
  }

  // No part of the other side's handshake has been consumed.
  predicate Awaiting(s: Session) { !s.done && (s.role == Peer ==> !s.start) }

  // The bytes received are those consumed for the handshake, those consumed as frames, and rx.
  ghost predicate Bookkeeping(s: Session) {
    && s.hs + s.stream + s.rx == s.received
    && DecodedSize(s.stream) == |s.stream| && Decode(s.stream) == s.frames
    && (!s.done ==> s.stream == [] && s.told == [] && s.frag == None)
    && (Awaiting(s) ==> s.hs == [])
    && (s.frag == None ==> s.ws == [])
  }

  // What was delivered is exactly what the reassembly makes of the frames consumed, whether the
  // session goes on or has stopped; while it goes on, no frame was refused.
  ghost predicate Delivery(c: Config, s: Session, go: bool) {
    var r := AcceptAll(START, s.frames, c.rxSize);
    && Told(s.told) == r.delivered
    && (go ==> r == Receiver(Told(s.told), Open(s), true))
  }

  ghost predicate Good(c: Config, s: Session, go: bool) {
    Flags(c, s, go) && Bookkeeping(s) && Delivery(c, s, go)
  }

  // ----- callbacks and masks -----

  // The output grows at its end, which leaves the answer in it where it was.
  lemma MoreOutput(s: Session, t: Session, put: Bytes)
    requires AnswerOk(s) && t.answer == s.answer && t.sent == s.sent && t.tx == s.tx + put
    ensures AnswerOk(t)
  {
    if s.answer.Some? {
      var a := s.answer.value;
      assert t.sent + t.tx == (s.sent + s.tx) + put;
    }
  }

  lemma CallGood(c: Config, s: Session, go: bool)
    requires Good(c, s, go)
    ensures Good(c, Call(c, s).0, go)
  {
    hide AcceptAll, Decode, DecodedSize, Told, AnswerOk;
    var t := Call(c, s).0;
    assert Open(t) == Open(s);
    MoreOutput(s, t, c.world(s.turn).put);
  }

  lemma ArmGood(c: Config, s: Session, go: bool)
    requires Good(c, s, go)
    ensures Good(c, Arm(c, s).0, go)
  {
    hide AcceptAll, Decode, DecodedSize, Told;
    assert Open(Arm(c, s).0) == Open(s);
  }

  lemma StopGood(c: Config, s: Session)
    requires Good(c, s, true)
    ensures Good(c, s, false)
  {
    hide AcceptAll, Decode, DecodedSize, Told;
  }

  // ----- handshakes -----

  lemma AnswerGood(c: Config, s: Session)
    requires Good(c, s, false) && s.role == Peer && s.start && !s.done && Delivery(c, s, true)
    ensures var (t, go) := AnswerUpgrade(c, s);
      Good(c, t, go) && t.role == s.role && t.done == s.done
  {
    hide AcceptAll, Decode, DecodedSize, Told, AnswerOk;
    if c.world(s.turn).built.Some? {
      var bytes := c.world(s.turn).built.value;
      var (s1, goes) := Call(c, s);
      CallGood(c, s, false);
      var s2 := s1.(tx := s1.tx + bytes, answer := Some(Answer(|s1.sent| + |s1.tx|, bytes)));
      AnswerPut(s2, s1.tx, bytes);
      assert Open(s2) == Open(s1) == Open(s);
      assert Good(c, s2, true);
      StopGood(c, s2);
      ArmGood(c, s2, true);
      ArmGood(c, s2, false);
    }
  }

  lemma AnswerPut(s: Session, before: Bytes, bytes: Bytes)
    requires s.tx == before + bytes && s.answer == Some(Answer(|s.sent| + |before|, bytes))
    ensures AnswerOk(s)
  {
    assert s.sent + s.tx == (s.sent + before) + bytes;
  }

  lemma AdvanceGood(c: Config, s: Session, n: nat, go: bool)
    requires Good(c, s, go) && s.stream == [] && !Awaiting(s)
    ensures Good(c, AdvanceHttp(s, n), go)
  {
    hide AcceptAll, Decode, DecodedSize, Told, AnswerOk;
    var t := AdvanceHttp(s, n);
    var k := if n < |s.rx| then n else |s.rx|;
    assert s.rx == s.rx[..k] + s.rx[k..];
    assert t.hs + t.stream + t.rx == s.hs + s.stream + s.rx;
    SameOutput(s, t);
    assert Open(t) == Open(s);
  }

  lemma ServerGood(c: Config, s: Session)
    requires Good(c, s, true) && s.role == Peer && !s.done
    ensures var (t, go) := ServerHandshake(c, s);
      Good(c, t, go) && t.role == s.role && t.done == s.done
  {
    hide AcceptAll, Decode, DecodedSize, Told, AnswerOk, LooksLikeTls;
    StopGood(c, s);
    if !s.start && !LooksLikeTls(s.rx) && c.http(s.rx).HttpComplete? {
      var h := c.http(s.rx);
      if h.upgrade && !(h.key == Missing && !c.allowMissing) {
        var s0 := s.(start := true);
        assert Open(s0) == Open(s) && (AnswerOk(s0) <==> AnswerOk(s)) by { SameOutput(s, s0); }
        assert Good(c, s0, false);
        var (s1, goes) := Call(c, s0);
        CallGood(c, s0, false);
        assert Open(s1) == Open(s0);
        AdvanceGood(c, s1, h.size, false);
        var s2 := AdvanceHttp(s1, h.size);
        assert Open(s2) == Open(s1);
        if goes { AnswerGood(c, s2); }
      }
    }
  }

  lemma SameOutput(s: Session, t: Session)
    requires t.answer == s.answer && t.sent == s.sent && t.tx == s.tx
    ensures AnswerOk(t) <==> AnswerOk(s)
  {
  }

  lemma ClientGood(c: Config, s: Session)
    requires Good(c, s, true) && s.role == Client && !s.done
    ensures var (t, go) := ClientHandshake(c, s);
      Good(c, t, go) && t.role == s.role
  {
    hide AcceptAll, Decode, DecodedSize, Told, AnswerOk;
    StopGood(c, s);
    if s.start && c.http(s.rx).HttpComplete? {
      var h := c.http(s.rx);
      if h.upgrade && h.key != Wrong && !(h.key == Missing && !c.allowMissing) {
        var s0 := s.(start := false, done := true);
        SameOutput(s, s0);
        assert s.received == s.rx by { assert [] + [] + s.rx == s.rx; }
        assert s.received[..|s.received|] == s.rx;
        assert Upgrades(c, c.http(s.received[..|s.received|]));
        assert Open(s0) == Open(s);
        assert Good(c, s0, true);
        ArmGood(c, s0, true);
        var s1 := Arm(c, s0).0;
        StopGood(c, s1);
        CallGood(c, s1, true);
        var s2 := Call(c, s1).0;
        AdvanceGood(c, s2, h.size, true);
        StopGood(c, AdvanceHttp(s2, h.size));
      }
    }
  }

  lemma HandshakeGood(c: Config, s: Session)
    requires Good(c, s, true)
    ensures var (t, go) := Handshake(c, s);
      Good(c, t, go) && t.role == s.role && (s.done ==> t == s && go)
  {
    hide Good, ServerHandshake, ClientHandshake;
    if !s.done { if s.role == Peer { ServerGood(c, s); } else { ClientGood(c, s); } }
  }

  // ----- frames -----

  lemma AcceptNext(frames: seq<Frame>, f: Frame, limit: nat)
    ensures AcceptAll(START, frames + [f], limit) == Accept(AcceptAll(START, frames, limit), f, limit)
  {
    AcceptAppend(START, frames, [f], limit);
    AcceptOne(AcceptAll(START, frames, limit), f, limit);
  }

  function OpenOf(ws: Bytes, frag: Option<Kind>): Option<Message> {
    match frag
    case None => None
    case Some(kind) => Some(Message(kind, ws))
  }

  // The branches of XAPI_HandleWS are the rules of reassembly with the limit on open messages: a
  // frame is refused exactly when the rules are broken or the message grows past the limit.
  lemma SortFollowsRules(ws: Bytes, frag: Option<Kind>, rxSize: nat, f: Frame, told: seq<Message>)
    requires frag == None ==> ws == []
    ensures var v := Sort(ws, frag, rxSize, f);
      var before := Receiver(told, OpenOf(ws, frag), true);
      var r := Accept(before, f, rxSize);
      (v.frag == None ==> v.ws == []) &&
      r.delivered == told + (if v.deliver.Some? then [v.deliver.value] else []) &&
      (v.deliver.Some? || v.go ==> r.legal && r.open == OpenOf(v.ws, v.frag)) &&
      (v.deliver == None && !v.go <==>
        !Receive(before, f).legal || (frag.Some? && f.kind == CONTINUATION && |ws + f.payload| > rxSize))
  {
    assert [] + f.payload == f.payload;
  }

  // All the fields that a frame changes.
  lemma FrameFields(c: Config, s: Session, f: Frame)
    ensures var v := Sort(s.ws, s.frag, c.rxSize, f);
      var w := c.world(s.turn);
      HandleFrame(c, s, f) ==
        match v.deliver
        case Some(m) => (s.(ws := v.ws, frag := v.frag, told := s.told + [Read(m, s.done)], turn := s.turn + 1, tx := s.tx + w.put), w.goes)
        case None => (s.(ws := v.ws, frag := v.frag), v.go)
  {
    hide Sort;
  }

  lemma FrameParts(c: Config, s: Session, f: Frame)
    ensures var v := Sort(s.ws, s.frag, c.rxSize, f);
      var (t, go) := HandleFrame(c, s, f);
      Open(t) == OpenOf(v.ws, v.frag) && t.ws == v.ws && t.frag == v.frag && (go ==> v.deliver.Some? || v.go) &&
      Told(t.told) == (if v.deliver.Some? then Told(s.told) + [v.deliver.value] else Told(s.told))
  {
    hide Sort, HandleFrame, Told;
    FrameFields(c, s, f);
    var v := Sort(s.ws, s.frag, c.rxSize, f);
    if v.deliver.Some? { ToldNext(s.told, Read(v.deliver.value, s.done)); }
  }

  lemma FrameDelivers(c: Config, s: Session, f: Frame)
    requires Delivery(c, s, true) && (s.frag == None ==> s.ws == [])
    ensures var (t, go) := HandleFrame(c, s, f);
      var r := AcceptAll(START, s.frames + [f], c.rxSize);
      (t.frag == None ==> t.ws == []) && Told(t.told) == r.delivered && (go ==> r == Receiver(Told(t.told), Open(t), true))
  {
    hide AcceptAll, Accept, Receive, Sort, HandleFrame, Told, OpenOf;
    OpenIs(s);
    AcceptNext(s.frames, f, c.rxSize);
    SortFollowsRules(s.ws, s.frag, c.rxSize, f, Told(s.told));
    FrameParts(c, s, f);
    hide Open;
    assert Told(s.told) + [] == Told(s.told);
  }

  lemma OpenIs(s: Session)
    ensures Open(s) == OpenOf(s.ws, s.frag)
  {
  }

  lemma ToldNext(told: seq<Read>, r: Read)
    ensures Told(told + [r]) == Told(told) + [r.message]
  {
  }

  lemma FrameFlags(c: Config, s: Session, f: Frame)
    requires Flags(c, s, true) && s.done
    ensures var (t, go) := HandleFrame(c, s, f);
      Flags(c, t, go) && t.role == s.role && t.done && t.rx == s.rx && t.stream == s.stream && t.hs == s.hs &&
      t.received == s.received && t.frames == s.frames
  {
    hide AnswerOk, HandleFrame, Sort;
    FrameFields(c, s, f);
    var (t, go) := HandleFrame(c, s, f);
    MoreOutput(s, t, if Sort(s.ws, s.frag, c.rxSize, f).deliver.Some? then c.world(s.turn).put else []);
  }

  lemma ConsumeGood(c: Config, s: Session, f: Frame, n: nat)
    requires Good(c, s, true) && s.done && Parse(s.rx) == Complete(f, n)
    ensures var (t, go) := HandleFrame(c, s, f);
      Good(c, ConsumeFrame(t, f, n), go) && t.role == s.role && t.done
  {
    hide AcceptAll, Told, AnswerOk, HandleFrame, Parse;
    FrameDelivers(c, s, f);
    FrameFlags(c, s, f);
    var (t, go) := HandleFrame(c, s, f);
    ConsumedIs(c, t, f, n, go, s);
  }

  lemma ConsumedIs(c: Config, t: Session, f: Frame, n: nat, go: bool, s: Session)
    requires Flags(c, t, go) && t.done && t.rx == s.rx && t.stream == s.stream && t.hs == s.hs && t.received == s.received && t.frames == s.frames
    requires Bookkeeping(s) && Parse(s.rx) == Complete(f, n) && (t.frag == None ==> t.ws == [])
    requires var r := AcceptAll(START, s.frames + [f], c.rxSize);
      Told(t.told) == r.delivered && (go ==> r == Receiver(Told(t.told), Open(t), true))
    ensures Good(c, ConsumeFrame(t, f, n), go)
  {
    hide AcceptAll, Told, AnswerOk, Parse;
    var u := ConsumeFrame(t, f, n);
    SameOutput(t, u);
    StreamGrows(s.hs, s.stream, s.rx, f, n);
    hide Decode, DecodedSize;
    assert Open(u) == Open(t);
  }

  lemma StreamGrows(hs: Bytes, stream: Bytes, rx: Bytes, f: Frame, n: nat)
    requires Parse(rx) == Complete(f, n) && DecodedSize(stream) == |stream|
    ensures hs + (stream + rx[..n]) + rx[n..] == hs + stream + rx
    ensures DecodedSize(stream + rx[..n]) == |stream + rx[..n]| && Decode(stream + rx[..n]) == Decode(stream) + [f]
  {
    hide Decode, DecodedSize, Parse;
    DecodeOne(rx);
    DecodeAppend(stream, rx[..n]);
    assert rx == rx[..n] + rx[n..];
  }

  lemma {:induction false} HandleGood(c: Config, s: Session)
    requires Good(c, s, true)
    ensures var (t, go) := HandleWS(c, s);
      Good(c, t, go) && t.role == s.role && (s.done ==> t.done)
    ensures HandleWS(c, s).1 && HandleWS(c, s).0.done ==> !Parse(HandleWS(c, s).0.rx).Complete?
    decreases |s.rx|
  {
    hide Good, Handshake, HandleFrame, Parse;
    HandshakeGood(c, s);
    ParseNothing();
    var (s0, go) := Handshake(c, s);
    if s.done || (go && s0.rx != [] && s0.done) {
      match Parse(s0.rx)
      case Bad => StopGood(c, s0);
      case Incomplete => StopGood(c, s0);
      case Complete(f, n) =>
        ConsumeGood(c, s0, f, n);
        var (s1, goes) := HandleFrame(c, s0, f);
        var s2 := ConsumeFrame(s1, f, n);
        if goes && s2.rx != [] { HandleGood(c, s2); }
    }
  }

  // ----- events -----

  lemma ReceivedGood(c: Config, s: Session, bytes: Bytes)
    requires Good(c, s, true)
    ensures Good(c, s.(rx := s.rx + bytes, received := s.received + bytes), true)
  {
    hide AcceptAll, Decode, DecodedSize, Told, AnswerOk;
    var t := s.(rx := s.rx + bytes, received := s.received + bytes);
    SameOutput(s, t);
    assert Open(t) == Open(s);
    assert t.hs + t.stream + t.rx == (s.hs + s.stream + s.rx) + bytes;
    UpgradedStays(c, s.received, bytes);
  }

  lemma UpgradedStays(c: Config, received: Bytes, bytes: Bytes)
    ensures Upgraded(c, received) ==> Upgraded(c, received + bytes)
  {
    if Upgraded(c, received) {
      var k :| 0 <= k <= |received| && Upgrades(c, c.http(received[..k]));
      assert (received + bytes)[..k] == received[..k];
    }
  }

  // Settled: every complete frame received after the handshake has been handled.
  ghost predicate Settled(s: Session) { s.done ==> !Parse(s.rx).Complete? }

  // What every step keeps and no step undoes.
  ghost predicate Onwards(c: Config, s: Session, t: Session, go: bool) {
    Good(c, t, go) && t.role == s.role && (s.done ==> t.done)
  }

  lemma RetryGood(c: Config, s: Session, readOnWrite: bool, writeOnRead: bool)
    requires Good(c, s, true)
    ensures Good(c, s.(readOnWrite := readOnWrite, writeOnRead := writeOnRead), true)
  {
    hide AcceptAll, Decode, DecodedSize, Told, AnswerOk;
    var t := s.(readOnWrite := readOnWrite, writeOnRead := writeOnRead);
    SameOutput(s, t);
    assert Open(t) == Open(s);
  }

  lemma ReadOnceGood(c: Config, s: Session, r: SockIn)
    requires Good(c, s, true)
    ensures var (t, go) := ReadOnce(c, s, r);
      Onwards(c, s, t, go) && (go && (Settled(s) || (r.Got? && r.bytes != [])) ==> Settled(t))
  {
    hide Good, HandleWS;
    StopGood(c, s);
    match r
    case Got(bytes) =>
      ReceivedGood(c, s, bytes);
      HandleGood(c, s.(rx := s.rx + bytes, received := s.received + bytes));
    case InWantsWrite =>
      RetryGood(c, s, true, s.writeOnRead);
      assert s.(readOnWrite := true) == s.(readOnWrite := true, writeOnRead := s.writeOnRead);
      ArmGood(c, s.(readOnWrite := true), true);
      StopGood(c, Arm(c, s.(readOnWrite := true)).0);
    case _ =>
  }

  lemma {:induction false} ReadAllGood(c: Config, s: Session, ins: seq<SockIn>)
    requires Good(c, s, true)
    ensures var (t, go) := ReadAll(c, s, ins);
      Onwards(c, s, t, go)
    decreases |ins|
  {
    hide Good, ReadOnce;
    if ins != [] {
      ReadOnceGood(c, s, ins[0]);
      if ReadOnce(c, s, ins[0]).1 { ReadAllGood(c, ReadOnce(c, s, ins[0]).0, ins[1..]); }
    }
  }

  // With nothing left to write, all of the answer has been written.
  lemma DoneGood(c: Config, s: Session)
    requires Good(c, s, true) && s.role == Peer && s.start && s.tx == []
    ensures Good(c, s.(start := false, done := true), true)
  {
    hide AcceptAll, Decode, DecodedSize, Told;
    assert Open(s.(start := false, done := true)) == Open(s);
  }

  lemma NotBoth(c: Config, s: Session)
    requires Good(c, s, true)
    ensures !(s.start && s.done)
  {
  }

  lemma WrittenGood(c: Config, s: Session)
    requires Good(c, s, true) && s.tx == []
    ensures var (t, go) := Written(c, s);
      Onwards(c, s, t, go)
  {
    hide Good;
    ArmGood(c, s, true);
    var s1 := Arm(c, s).0;
    StopGood(c, s1);
    var s2 := if s1.done then Call(c, s1).0 else if s1.role == Client then Arm(c, s1).0 else s1;
    if s1.done { CallGood(c, s1, true); } else if s1.role == Client { ArmGood(c, s1, true); }
    StopGood(c, s2);
    NotBoth(c, s2);
    if s2.role == Peer && s2.start { DoneGood(c, s2); }
  }

  lemma SentGood(c: Config, s: Session, k: nat)
    requires Good(c, s, true) && k <= |s.tx|
    ensures Good(c, s.(tx := s.tx[k..], sent := s.sent + s.tx[..k]), true)
  {
    hide AcceptAll, Decode, DecodedSize, Told;
    var t := s.(tx := s.tx[k..], sent := s.sent + s.tx[..k]);
    assert s.tx == s.tx[..k] + s.tx[k..];
    assert t.sent + t.tx == s.sent + s.tx;
    assert Open(t) == Open(s);
  }

  lemma WriteGood(c: Config, s: Session, w: SockOut)
    requires Good(c, s, true)
    ensures var (t, go) := Write(c, s, w);
      Onwards(c, s, t, go)
  {
    hide Good, Written;
    StopGood(c, s);
    if s.tx != [] {
      match w
      case OutWantsRead =>
        RetryGood(c, s, s.readOnWrite, true);
        assert s.(writeOnRead := true) == s.(readOnWrite := s.readOnWrite, writeOnRead := true);
        ArmGood(c, s.(writeOnRead := true), true);
        StopGood(c, Arm(c, s.(writeOnRead := true)).0);
      case Wrote(n) =>
        var k := if n < |s.tx| then n else |s.tx|;
        SentGood(c, s, k);
        var s1 := s.(tx := s.tx[k..], sent := s.sent + s.tx[..k]);
        if s1.tx == [] { WrittenGood(c, s1); }
      case _ =>
    }
  }

  lemma ReadEventGood(c: Config, s: Session, ins: seq<SockIn>, w: SockOut)
    requires Good(c, s, true)
    ensures var (t, go) := ReadEvent(c, s, ins, w);
      Onwards(c, s, t, go)
  {
    hide Good, ReadAll, Write;
    if s.writeOnRead {
      ArmGood(c, s, true);
      var s1 := Arm(c, s).0;
      StopGood(c, s1);
      RetryGood(c, s1, s1.readOnWrite, false);
      assert s1.(writeOnRead := false) == s1.(readOnWrite := s1.readOnWrite, writeOnRead := false);
      WriteGood(c, s1.(writeOnRead := false), w);
    } else {
      ReadAllGood(c, s, ins);
    }
  }

  lemma RequestGood(c: Config, s: Session)
    requires Good(c, s, true) && s.role == Client && !s.start && !s.done
    ensures var (t, go) := RequestUpgrade(c, s);
      Onwards(c, s, t, go)
  {
    hide AcceptAll, Decode, DecodedSize, Told, AnswerOk;
    StopGood(c, s);
    if c.world(s.turn).built.Some? {
      var s0 := s.(start := true);
      SameOutput(s, s0);
      assert Open(s0) == Open(s) && Good(c, s0, true);
      var s1 := Call(c, s0).0;
      CallGood(c, s0, true);
      var s2 := s1.(tx := s1.tx + c.world(s.turn).built.value);
      MoreOutput(s1, s2, c.world(s.turn).built.value);
      assert Open(s2) == Open(s1) && Good(c, s2, true);
      StopGood(c, s2);
      ArmGood(c, s2, true);
      ArmGood(c, s2, false);
    }
  }

  lemma OutputGood(c: Config, s: Session, w: SockOut)
    requires Good(c, s, true)
    ensures var (t, go) := Output(c, s, w);
      Onwards(c, s, t, go)
  {
    hide Good, Write;
    if s.tx == [] {
      CallGood(c, s, true);
      var s1 := Call(c, s).0;
      StopGood(c, s1);
      ArmGood(c, s1, true);
      StopGood(c, Arm(c, s1).0);
      WriteGood(c, s1, w);
    } else {
      WriteGood(c, s, w);
    }
  }

  lemma WriteEventGood(c: Config, s: Session, w: SockOut, ins: seq<SockIn>)
    requires Good(c, s, true)
    ensures var (t, go) := WriteEvent(c, s, w, ins);
      Onwards(c, s, t, go)
  {
    hide Good, ReadAll, Output, RequestUpgrade;
    if s.readOnWrite {
      ArmGood(c, s, true);
      var s1 := Arm(c, s).0;
      StopGood(c, s1);
      RetryGood(c, s1, false, s1.writeOnRead);
      assert s1.(readOnWrite := false) == s1.(readOnWrite := false, writeOnRead := s1.writeOnRead);
      ReadAllGood(c, s1.(readOnWrite := false), ins);
    } else if s.role == Client && !s.start && !s.done {
      RequestGood(c, s);
      var (s1, go) := RequestUpgrade(c, s);
      if go { OutputGood(c, s1, w); }
    } else {
      OutputGood(c, s, w);
    }
  }

  lemma AliveGood(c: Config, s: Session, go: bool)
    requires Good(c, s, go)
    ensures Good(c, s.(alive := go), go)
  {
    hide AcceptAll, Decode, DecodedSize, Told, AnswerOk;
    var t := s.(alive := go);
    SameOutput(s, t);
    assert Open(t) == Open(s);
  }

  // Every event keeps it all, and never clears the done flag.
  lemma StepGood(c: Config, s: Session, e: Event)
    requires Good(c, s, s.alive)
    ensures var t := Step(c, s, e);
      Good(c, t, t.alive) && t.role == s.role && (s.done ==> t.done)
  {
    hide Good, ReadEvent, WriteEvent;
    if s.alive {
      match e
      case Readable(ins, w) =>
        ReadEventGood(c, s, ins, w);
        AliveGood(c, ReadEvent(c, s, ins, w).0, ReadEvent(c, s, ins, w).1);
      case Writable(w, ins) =>
        WriteEventGood(c, s, w, ins);
        AliveGood(c, WriteEvent(c, s, w, ins).0, WriteEvent(c, s, w, ins).1);
    }
  }

  lemma {:induction false} RunGood(c: Config, s: Session, events: seq<Event>)
    requires Good(c, s, s.alive)
    ensures var t := Run(c, s, events);
      Good(c, t, t.alive) && t.role == s.role && (s.done ==> t.done)
    decreases |events|
  {
    hide Good, Step;
    if events != [] {
      StepGood(c, s, events[0]);
      RunGood(c, Step(c, s, events[0]), events[1..]);
    }
  }

  lemma FreshGood(c: Config, role: Role)
    ensures Good(c, Fresh(role), true)
  {
    ParseNothing();
  }

  // ======================= what follows for every run of a session =======================

  // No READ before the handshake is done; start and done never both; a peer done only once its
  // whole answer was written, a client only once the bytes received
  // began with a complete response that upgrades, with a key that is not refused.
  lemma HandshakeSafe(c: Config, role: Role, events: seq<Event>)
    ensures var t := Run(c, Fresh(role), events);
      !(t.start && t.done) && (forall i | 0 <= i < |t.told| :: t.told[i].done) &&
      (role == Peer && t.done ==> AnswerSent(t)) && (role == Client && t.done ==> Upgraded(c, t.received))
  {
    hide Run, Bookkeeping, Delivery;
    FreshGood(c, role);
    RunGood(c, Fresh(role), events);
    var t := Run(c, Fresh(role), events);
    if role == Peer && t.done {
      var a := t.answer.value;
      assert (t.sent + t.tx)[a.start..a.start + |a.bytes|] == t.sent[a.start..a.start + |a.bytes|];
    }
  }

  ghost predicate AnswerSent(t: Session) {
    t.answer.Some? && t.answer.value.start + |t.answer.value.bytes| <= |t.sent| &&
    t.sent[t.answer.value.start..t.answer.value.start + |t.answer.value.bytes|] == t.answer.value.bytes
  }

  // Once done, always done.
  lemma DoneStays(c: Config, role: Role, before: seq<Event>, after: seq<Event>)
    ensures Run(c, Fresh(role), before).done ==> Run(c, Run(c, Fresh(role), before), after).done
  {
    hide Run;
    FreshGood(c, role);
    RunGood(c, Fresh(role), before);
    RunGood(c, Run(c, Fresh(role), before), after);
  }

  // What a session has delivered, dead or alive, is what the reassembly makes of the frames it
  // consumed, and the beginning of what it would make of them without the limit. While it lives,
  // what it delivered and has in progress, carried on with the frames still whole in rx, is the
  // reassembly of all frames received. How the bytes were cut into reads makes no difference.
  lemma DeliversReassembly(c: Config, role: Role, events: seq<Event>)
    ensures var t := Run(c, Fresh(role), events);
      t.hs + t.stream + t.rx == t.received && (t.frag == None ==> t.ws == []) &&
      Told(t.told) == AcceptAll(START, Decode(t.stream), c.rxSize).delivered &&
      Told(t.told) <= ReceiveAll(START, Decode(t.stream)).delivered &&
      (t.alive && t.done ==>
        ReceiveAll(Receiver(Told(t.told), Open(t), true), Decode(t.rx)) == ReceiveAll(START, Decode(t.stream + t.rx)))
  {
    hide Run, Flags, AcceptAll, ReceiveAll, Decode, DecodedSize, Told;
    FreshGood(c, role);
    RunGood(c, Fresh(role), events);
    var t := Run(c, Fresh(role), events);
    AcceptIsReceive(START, t.frames, c.rxSize);
    if t.alive && t.done {
      DecodeAppend(t.stream, t.rx);
      ReceiveAppend(START, Decode(t.stream), Decode(t.rx));
    }
  }

  lemma NoneWait(b: Bytes)
    ensures !Parse(b).Complete? ==> Decode(b) == []
  {
  }

  // And reading settles: a read that goes on leaves no complete frame unhandled.
  lemma ReadingSettles(c: Config, s: Session, bytes: Bytes)
    requires Good(c, s, true) && bytes != []
    ensures ReadOnce(c, s, Got(bytes)).1 ==> Settled(ReadOnce(c, s, Got(bytes)).0)
  {
    hide Good, ReadOnce;
    ReadOnceGood(c, s, Got(bytes));
  }
}
