/**
 When the handshake of a WebSocket session is done: with callbacks that go on, masks that can be set
 and sockets that work, whatever the events and however few bytes each of them reads or writes.
 */
module WsHandshake {
  import opened Options
  import opened WsFrames
  import opened WsModel
  import opened WsTheorems
  import opened WsLiveness

  // A handshake of the other side that needs more bytes, or is complete and acceptable.
  predicate Waits(c: Config, role: Role, p: Bytes) { c.http(p).HttpIncomplete? && !RefusesHandshake(c, role, p) }
  predicate Accepts(c: Config, role: Role, p: Bytes) { c.http(p).HttpComplete? && !RefusesHandshake(c, role, p) }

  // The bytes are those of an acceptable handshake, whole or not, and more may follow it.
  ghost predicate Orderly(c: Config, role: Role, total: Bytes) {
    && (forall p: Bytes | p <= total && p != [] :: Waits(c, role, p) || Accepts(c, role, p))
    && (forall p: Bytes, q: Bytes | p <= q && q <= total && p != [] && Accepts(c, role, p) :: Accepts(c, role, q))
  }

  predicate Pending(c: Config, role: Role, p: Bytes) { p == [] || Waits(c, role, p) }

  // The end of the answer is the end of the output.
  predicate Answering(s: Session) {
    s.tx != [] && s.answer.Some? && s.answer.value.start + |s.answer.value.bytes| == |s.sent| + |s.tx|
  }

  // How far the handshake is.
  ghost predicate Phase(c: Config, s: Session) {
    if s.done then s.received != [] && Accepts(c, s.role, s.received)
    else if s.role == Peer then
      if s.start then s.received != [] && Accepts(c, Peer, s.received) && Answering(s)
      else s.rx == s.received && Pending(c, Peer, s.received) && s.answer == None
    else s.rx == s.received && (s.start ==> Pending(c, Client, s.received))
  }

  // ----- what is received only grows -----

  lemma AnswerReceived(c: Config, s: Session)
    ensures AnswerUpgrade(c, s).0.received == s.received
  {
  }

  lemma ServerReceived(c: Config, s: Session)
    ensures ServerHandshake(c, s).0.received == s.received
  {
    hide AnswerUpgrade, LooksLikeTls;
    if c.http(s.rx).HttpComplete? { AnswerReceived(c, AdvanceHttp(Call(c, s.(start := true)).0, c.http(s.rx).size)); }
  }

  lemma ClientReceived(c: Config, s: Session)
    ensures ClientHandshake(c, s).0.received == s.received
  {
  }

  lemma HandshakeReceived(c: Config, s: Session)
    ensures Handshake(c, s).0.received == s.received
  {
    hide ServerHandshake, ClientHandshake;
    ServerReceived(c, s);
    ClientReceived(c, s);
  }

  lemma FrameReceived(c: Config, s: Session, f: Frame)
    ensures HandleFrame(c, s, f).0.received == s.received
  {
    hide Sort;
  }

  lemma {:induction false} HandleReceived(c: Config, s: Session)
    ensures HandleWS(c, s).0.received == s.received
    decreases |s.rx|
  {
    hide Handshake, HandleFrame, Parse;
    HandshakeReceived(c, s);
    var (s0, go) := Handshake(c, s);
    match Parse(s0.rx)
    case Complete(f, n) =>
      FrameReceived(c, s0, f);
      var (s1, goes) := HandleFrame(c, s0, f);
      var s2 := ConsumeFrame(s1, f, n);
      if goes && s2.rx != [] { HandleReceived(c, s2); }
    case _ =>
  }

  lemma ReadReceived(c: Config, s: Session, r: SockIn)
    ensures ReadOnce(c, s, r).0.received == s.received + if r.Got? then r.bytes else []
  {
    hide HandleWS;
    if r.Got? { HandleReceived(c, s.(rx := s.rx + r.bytes, received := s.received + r.bytes)); }
  }

  lemma {:induction false} ReadAllReceived(c: Config, s: Session, ins: seq<SockIn>)
    ensures s.received <= ReadAll(c, s, ins).0.received
    decreases |ins|
  {
    hide ReadOnce;
    if ins != [] {
      ReadReceived(c, s, ins[0]);
      ReadAllReceived(c, ReadOnce(c, s, ins[0]).0, ins[1..]);
    }
  }

  lemma WrittenReceived(c: Config, s: Session)
    ensures Written(c, s).0.received == s.received && Written(c, s).0.sent == s.sent
  {
    hide Call, Arm;
    var s1 := Arm(c, s).0;
    TurnReceived(c, s);
    TurnReceived(c, s1);
  }

  lemma TurnReceived(c: Config, s: Session)
    ensures Call(c, s).0.received == Arm(c, s).0.received == s.received && Call(c, s).0.sent == Arm(c, s).0.sent == s.sent
  {
  }

  lemma WriteReceived(c: Config, s: Session, w: SockOut)
    ensures Write(c, s, w).0.received == s.received
    ensures Write(c, s, w).0.sent ==
            s.sent + if w.Wrote? then s.tx[..if w.n < |s.tx| then w.n else |s.tx|] else []
  {
    hide Written;
    if w.Wrote? { WrittenReceived(c, s.(tx := [], sent := s.sent + s.tx[..|s.tx|])); }
    assert s.tx[|s.tx|..] == [];
  }

  lemma OutputReceived(c: Config, s: Session, w: SockOut)
    ensures Output(c, s, w).0.received == s.received
  {
    hide Write;
    WriteReceived(c, s, w);
    WriteReceived(c, Call(c, s).0, w);
  }

  lemma StepReceived(c: Config, s: Session, e: Event)
    ensures s.received <= Step(c, s, e).received
  {
    hide ReadAll, Write, Output;
    match e
    case Readable(ins, w) =>
      WriteReceived(c, Arm(c, s).0.(writeOnRead := false), w);
      ReadAllReceived(c, s, ins);
    case Writable(w, ins) =>
      ReadAllReceived(c, Arm(c, s).0.(readOnWrite := false), ins);
      OutputReceived(c, s, w);
      OutputReceived(c, RequestUpgrade(c, s).0, w);
  }

  lemma {:induction false} RunReceived(c: Config, s: Session, events: seq<Event>)
    ensures s.received <= Run(c, s, events).received
    decreases |events|
  {
    hide Step;
    if events != [] {
      StepReceived(c, s, events[0]);
      RunReceived(c, Step(c, s, events[0]), events[1..]);
    }
  }

  // ----- reading -----

  // Only rx and received change when bytes have to wait.
  lemma WaitingRead(c: Config, s: Session, bytes: Bytes)
    requires Reading(s) && s.rx == s.received && bytes != [] && Waits(c, s.role, s.rx + bytes)
    ensures ReadOnce(c, s, Got(bytes)) == (s.(rx := s.rx + bytes, received := s.received + bytes), true)
  {
    hide LooksLikeTls;
  }

  // Nor before a client's request, nor while a peer's answer is written.
  lemma IdleRead(c: Config, s: Session, bytes: Bytes)
    requires !s.done && !Reading(s) && bytes != []
    ensures ReadOnce(c, s, Got(bytes)) == (s.(rx := s.rx + bytes, received := s.received + bytes), true)
  {
  }

  lemma PeerRead(c: Config, s: Session, bytes: Bytes)
    requires Obliges(c) && s.role == Peer && Reading(s) && s.rx == s.received && bytes != [] && Accepts(c, Peer, s.rx + bytes)
    ensures var (t, go) := ReadOnce(c, s, Got(bytes));
      go && t.role == Peer && t.start && !t.done && Answering(t) && t.received == s.received + bytes
  {
    hide LooksLikeTls, AnswerUpgrade;
    var r := s.(rx := s.rx + bytes, received := s.received + bytes);
    assert Obliging(c.world(s.turn));
    Answers(c, AdvanceHttp(Call(c, r.(start := true)).0, c.http(r.rx).size));
  }

  lemma ClientRead(c: Config, s: Session, bytes: Bytes)
    requires Good(c, s, true) && Obliges(c) && s.role == Client && Reading(s) && bytes != [] && s.rx == s.received
    requires Accepts(c, Client, s.rx + bytes)
    ensures ReadOnce(c, s, Got(bytes)).0.done && ReadOnce(c, s, Got(bytes)).0.role == Client
  {
    hide Good, ClientHandshake, HandleFrame, Parse;
    var r := s.(rx := s.rx + bytes, received := s.received + bytes);
    ReceivedGood(c, s, bytes);
    HandshakeGood(c, r);
    ClientAccepts(c, r);
    FromDone(c, r);
  }

  lemma ClientAccepts(c: Config, s: Session)
    requires Obliges(c) && s.role == Client && Reading(s) && Accepts(c, Client, s.rx)
    ensures var (t, go) := ClientHandshake(c, s); go && t.done
  {
    assert Obliging(c.world(s.turn)) && Obliging(c.world(s.turn + 1));
  }

  lemma FromDone(c: Config, s: Session)
    requires Good(c, s, true) && Handshake(c, s).0.done && Handshake(c, s).1
    ensures HandleWS(c, s).0.done && HandleWS(c, s).0.role == s.role
  {
    hide Good, Handshake, HandleFrame, Parse;
    HandleGood(c, s);
    HandshakeGood(c, s);
    var s0 := Handshake(c, s).0;
    match Parse(s0.rx)
    case Complete(f, n) =>
      ConsumeGood(c, s0, f, n);
      FrameKeeps(c, s0, f);
      var (s1, goes) := HandleFrame(c, s0, f);
      if goes && s0.rx[n..] != [] { HandleGood(c, ConsumeFrame(s1, f, n)); }
    case _ =>
  }

  // What has been accepted stays so.
  lemma StaysAccepted(c: Config, role: Role, total: Bytes, p: Bytes, more: Bytes)
    requires Orderly(c, role, total) && p + more <= total && p != [] && Accepts(c, role, p)
    ensures Accepts(c, role, p + more)
  {
    hide Accepts, Waits;
    assert p <= p + more;
  }

  lemma NextPart(c: Config, role: Role, total: Bytes, p: Bytes)
    requires Orderly(c, role, total) && p <= total && p != []
    ensures Waits(c, role, p) || Accepts(c, role, p)
  {
  }

  lemma GotPhase(c: Config, s: Session, bytes: Bytes, total: Bytes)
    requires Good(c, s, true) && Obliges(c) && Orderly(c, s.role, total) && Phase(c, s)
    requires bytes != [] && s.received + bytes <= total
    ensures var (t, go) := ReadOnce(c, s, Got(bytes)); Phase(c, t) && (go || t.done) && t.role == s.role
  {
    hide Good, ReadOnce, Orderly, Accepts, Waits;
    ReadOnceGood(c, s, Got(bytes));
    ReadReceived(c, s, Got(bytes));
    NextPart(c, s.role, total, s.received + bytes);
    if s.done {
      StaysAccepted(c, s.role, total, s.received, bytes);
    } else if !Reading(s) {
      IdleRead(c, s, bytes);
      if s.role == Peer { StaysAccepted(c, Peer, total, s.received, bytes); }
    } else if Waits(c, s.role, s.received + bytes) {
      WaitingRead(c, s, bytes);
    } else if s.role == Peer {
      PeerRead(c, s, bytes);
    } else {
      ClientRead(c, s, bytes);
    }
  }

  lemma OtherPhase(c: Config, s: Session, r: SockIn)
    requires Obliges(c) && Phase(c, s) && !r.Got? && SmoothIn(r)
    ensures var (t, go) := ReadOnce(c, s, r); Phase(c, t) && go && t.role == s.role
  {
    hide Accepts, Waits;
    assert Obliging(c.world(s.turn));
  }

  lemma {:induction false} ReadAllPhase(c: Config, s: Session, ins: seq<SockIn>, total: Bytes)
    requires Good(c, s, true) && Obliges(c) && Orderly(c, s.role, total) && Phase(c, s)
    requires (forall i | 0 <= i < |ins| :: SmoothIn(ins[i])) && ReadAll(c, s, ins).0.received <= total
    ensures var (t, go) := ReadAll(c, s, ins); Phase(c, t) && (go || t.done) && t.role == s.role
    decreases |ins|
  {
    hide Good, ReadOnce, Orderly, Phase;
    if ins != [] {
      var r := ins[0];
      var (s1, go) := ReadOnce(c, s, r);
      assert SmoothIn(r);
      ReadOnceGood(c, s, r);
      ReadReceived(c, s, r);
      ReadAllReceived(c, s1, ins[1..]);
      if r.Got? { GotPhase(c, s, r.bytes, total); } else { OtherPhase(c, s, r); }
      if go { ReadAllPhase(c, s1, ins[1..], total); }
    }
  }

  // ----- writing -----

  lemma WritePhase(c: Config, s: Session, w: SockOut)
    requires Obliges(c) && Phase(c, s) && SmoothOut(w) && !(s.start && s.done)
    ensures var (t, go) := Write(c, s, w); Phase(c, t) && go && t.role == s.role
  {
    hide Accepts, Waits;
    assert Obliging(c.world(s.turn)) && Obliging(c.world(s.turn + 1));
  }

  lemma OutputPhase(c: Config, s: Session, w: SockOut)
    requires Obliges(c) && Phase(c, s) && SmoothOut(w) && !(s.start && s.done)
    ensures var (t, go) := Output(c, s, w); Phase(c, t) && go && t.role == s.role
  {
    hide Write, Accepts, Waits;
    assert Obliging(c.world(s.turn)) && Obliging(c.world(s.turn + 1));
    WritePhase(c, s, w);
    if s.tx == [] { WritePhase(c, Call(c, s).0, w); }
  }

  lemma RequestPhase(c: Config, s: Session)
    requires Obliges(c) && Phase(c, s) && s.role == Client && !s.start && !s.done && s.received == []
    ensures var (t, go) := RequestUpgrade(c, s); Phase(c, t) && go && t.role == Client && !t.done
  {
    assert Obliging(c.world(s.turn)) && Obliging(c.world(s.turn + 1));
  }

  // ----- events -----

  // Nothing comes before a client's request.
  predicate InTurn(s: Session) { s.role == Client && !s.start && !s.done ==> s.received == [] }

  lemma StepPhase(c: Config, s: Session, e: Event, total: Bytes)
    requires Good(c, s, true) && s.alive && Obliges(c) && Smooth(e) && Orderly(c, s.role, total) && Phase(c, s)
    requires InTurn(s) && Step(c, s, e).received <= total
    ensures var t := Step(c, s, e); Phase(c, t) && (t.alive || t.done) && t.role == s.role
  {
    hide Good, ReadAll, Write, Output, RequestUpgrade, Orderly, Accepts, Waits;
    NotBoth(c, s);
    assert Obliging(c.world(s.turn));
    match e
    case Readable(ins, w) =>
      if s.writeOnRead { WritePhase(c, Arm(c, s).0.(writeOnRead := false), w); } else { ReadAllPhase(c, s, ins, total); }
    case Writable(w, ins) =>
      if s.readOnWrite {
        var s1 := Arm(c, s).0;
        ArmGood(c, s, true);
        RetryGood(c, s1, false, s1.writeOnRead);
        assert s1.(readOnWrite := false) == s1.(readOnWrite := false, writeOnRead := s1.writeOnRead);
        ReadAllPhase(c, s1.(readOnWrite := false), ins, total);
      } else if s.role == Client && !s.start && !s.done {
        RequestPhase(c, s);
        OutputPhase(c, RequestUpgrade(c, s).0, w);
      } else {
        OutputPhase(c, s, w);
      }
  }

  ghost predicate AllInTurn(c: Config, s: Session, events: seq<Event>)
    decreases |events|
  {
    InTurn(s) && (events == [] || AllInTurn(c, Step(c, s, events[0]), events[1..]))
  }

  lemma {:induction false} RunPhase(c: Config, s: Session, events: seq<Event>, total: Bytes)
    requires Good(c, s, s.alive) && Obliges(c) && (forall i | 0 <= i < |events| :: Smooth(events[i]))
    requires Orderly(c, s.role, total) && Phase(c, s) && (s.alive || s.done)
    requires AllInTurn(c, s, events) && Run(c, s, events).received <= total
    ensures var t := Run(c, s, events); Phase(c, t) && (t.alive || t.done) && t.role == s.role && InTurn(t)
    decreases |events|
  {
    hide Good, Step, Phase, Orderly, Smooth, InTurn;
    if events != [] {
      var s1 := Step(c, s, events[0]);
      StepGood(c, s, events[0]);
      RunReceived(c, s1, events[1..]);
      if s.alive { StepPhase(c, s, events[0], total); } else { DeadStays(c, s, events[0]); }
      RunPhase(c, s1, events[1..], total);
    }
  }

  // ======================= when the handshake is done =======================

  // A peer's, over every run in which an acceptable request comes in, in any number of reads: it is
  // done exactly when all of the request has been read and all of the answer written, in any number
  // of writes, and until then the session lives.
  lemma PeerCompletes(c: Config, events: seq<Event>)
    requires Obliges(c) && (forall i | 0 <= i < |events| :: Smooth(events[i]))
    requires Orderly(c, Peer, Run(c, Fresh(Peer), events).received)
    ensures var t := Run(c, Fresh(Peer), events);
      (t.done <==> t.received != [] && Accepts(c, Peer, t.received) && AnswerSent(t)) &&
      (t.start <==> t.received != [] && Accepts(c, Peer, t.received) && !AnswerSent(t)) && (!t.done ==> t.alive)
  {
    hide Run, Orderly, Good, AnswerOk;
    var t := Run(c, Fresh(Peer), events);
    FreshGood(c, Peer);
    PeerInTurn(c, Fresh(Peer), events);
    RunPhase(c, Fresh(Peer), events, t.received);
    HandshakeSafe(c, Peer, events);
    RunGood(c, Fresh(Peer), events);
    AnswerIs(c, t);
  }

  lemma AnswerIs(c: Config, s: Session)
    requires Good(c, s, s.alive)
    ensures AnswerOk(s)
  {
  }

  lemma {:induction false} PeerInTurn(c: Config, s: Session, events: seq<Event>)
    requires s.role == Peer && Good(c, s, s.alive)
    ensures AllInTurn(c, s, events)
    decreases |events|
  {
    hide Good, Step;
    if events != [] {
      StepGood(c, s, events[0]);
      PeerInTurn(c, Step(c, s, events[0]), events[1..]);
    }
  }

  // A client's, over every run in which an acceptable response comes in after its request: it is done
  // exactly when all of the response has been read.
  lemma ClientCompletes(c: Config, events: seq<Event>)
    requires Obliges(c) && (forall i | 0 <= i < |events| :: Smooth(events[i])) && AllInTurn(c, Fresh(Client), events)
    requires Orderly(c, Client, Run(c, Fresh(Client), events).received)
    ensures var t := Run(c, Fresh(Client), events);
      (t.done <==> t.received != [] && Accepts(c, Client, t.received)) && (!t.done ==> t.alive)
  {
    hide Run, Orderly, Good, AllInTurn;
    FreshGood(c, Client);
    RunPhase(c, Fresh(Client), events, Run(c, Fresh(Client), events).received);
  }

  // What a write event puts out is the front of tx, as much as the socket takes.
  lemma WritesFront(c: Config, s: Session, n: nat, ins: seq<SockIn>)
    requires s.alive && s.tx != [] && !s.readOnWrite && (s.role == Client ==> s.start || s.done) && n > 0
    ensures Step(c, s, Writable(Wrote(n), ins)).sent == s.sent + s.tx[..if n < |s.tx| then n else |s.tx|]
  {
    hide Write;
    WriteReceived(c, s, Wrote(n));
  }

  // A frame that is there before a peer's answer is written is not handled when the handshake gets
  // done: that takes another read.
  lemma FrameWaits(c: Config, s: Session, n: nat, ins: seq<SockIn>)
    requires Obliges(c) && s.alive && s.role == Peer && s.start && !s.done && !s.readOnWrite && s.tx != [] && n >= |s.tx|
    ensures var t := Step(c, s, Writable(Wrote(n), ins));
      t.alive && t.done && t.rx == s.rx && t.told == s.told && (Parse(s.rx).Complete? ==> !Settled(t))
  {
    hide Parse;
    assert Obliging(c.world(s.turn));
  }
}
