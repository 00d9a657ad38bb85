/**
 When a WebSocket session disconnects: with callbacks that go on, masks that can be set and
 sockets that work, only for what it received, and then for one of a few reasons. So what it
 delivers is exactly the reassembly of what it received, up to the first frame refused.
 */
module WsLiveness {
  import opened Options
  import opened WsFrames
  import opened WsModel
  import opened WsTheorems

  // Callbacks return CONTINUE, masks can be set, requests and answers can be built.
  ghost predicate Obliges(c: Config) {
    forall i: nat :: Obliging(c.world(i))
  }

  predicate Obliging(w: World) { w.goes && w.armed && w.built.Some? && w.built.value != [] }

  // Sockets that neither fail nor end.
  predicate SmoothIn(r: SockIn) { r != InFailed && r != Got([]) }
  predicate SmoothOut(w: SockOut) { w != OutFailed && w != Wrote(0) }

  predicate Smooth(e: Event) {
    SmoothOut(e.w) && forall i | 0 <= i < |e.ins| :: SmoothIn(e.ins[i])
  }

  // ----- reasons -----

  // The other side's handshake is read in this state.
  predicate Reading(s: Session) { !s.done && (s.role == Peer <==> !s.start) }

  predicate RefusesHandshake(c: Config, role: Role, received: Bytes) {
    || (role == Peer && LooksLikeTls(received))
    || match c.http(received)
       case HttpComplete(_, upgrade, key) => !upgrade || (key == Missing && !c.allowMissing) || (role == Client && key == Wrong)
       case HttpParsed => false
       case HttpIncomplete => |received| > c.rxSize
       case HttpBad => true
  }

  // A beginning of a frame that no more bytes can make acceptable.
  predicate RefusesTail(rx: Bytes, limit: nat) {
    Parse(rx) == Bad || (Parse(rx) == Incomplete && |rx| > limit)
  }

  predicate Refused(c: Config, s: Session) {
    if s.done then !AcceptAll(START, s.frames, c.rxSize).legal || RefusesTail(s.rx, c.rxSize)
    else Reading(s) && RefusesHandshake(c, s.role, s.received)
  }

  // ----- one read -----

  // The answer is put behind what is in tx.
  lemma Answers(c: Config, s: Session)
    requires Obliges(c)
    ensures var (t, go) := AnswerUpgrade(c, s);
      go && t.tx != [] && t.answer.Some? && t.answer.value.start + |t.answer.value.bytes| == |s.sent| + |t.tx| &&
      t == s.(turn := t.turn, tx := t.tx, answer := t.answer)
  {
    assert Obliging(c.world(s.turn)) && Obliging(c.world(s.turn + 1));
  }

  lemma ServerExact(c: Config, s: Session)
    requires Obliges(c) && !s.start && !s.done && s.role == Peer && s.rx == s.received
    ensures var (t, go) := ServerHandshake(c, s);
      (go <==> !RefusesHandshake(c, Peer, s.received)) && !t.done && t.role == Peer && t.received == s.received &&
      (go && t.start ==> c.http(s.received).HttpComplete?) && (!go ==> !t.start)
  {
    hide LooksLikeTls, AnswerUpgrade;
    assert Obliging(c.world(s.turn));
    if c.http(s.rx).HttpComplete? { Answers(c, AdvanceHttp(Call(c, s.(start := true)).0, c.http(s.rx).size)); }
  }

  lemma ClientExact(c: Config, s: Session)
    requires Obliges(c) && s.start && !s.done && s.role == Client && s.rx == s.received
    ensures var (t, go) := ClientHandshake(c, s);
      (go <==> !RefusesHandshake(c, Client, s.received)) && (!t.done ==> t.start) && t.role == Client &&
      t.received == s.received && (t.done ==> go)
  {
    assert Obliging(c.world(s.turn)) && Obliging(c.world(s.turn + 1));
  }

  lemma HandshakeExact(c: Config, s: Session)
    requires Good(c, s, true) && Obliges(c) && !s.done
    ensures var (t, go) := Handshake(c, s);
      t.role == s.role && (t.done ==> go) && (!t.done ==> (go <==> !Refused(c, t)))
  {
    hide ServerHandshake, ClientHandshake, RefusesHandshake, AcceptAll, AnswerOk, Decode, DecodedSize, Upgraded, Told;
    AwaitingRx(c, s);
    if s.role == Peer {
      if s.start { ServerStarted(c, s); } else { ServerExact(c, s); }
    } else {
      if s.start { ClientExact(c, s); } else { ClientWaits(c, s); }
    }
  }

  lemma AwaitingRx(c: Config, s: Session)
    requires Good(c, s, true)
    ensures Awaiting(s) ==> s.rx == s.received
  {
    assert [] + [] + s.rx == s.rx;
  }

  lemma ServerStarted(c: Config, s: Session)
    ensures s.start ==> ServerHandshake(c, s) == (s, true)
  {
  }

  lemma ClientWaits(c: Config, s: Session)
    ensures !s.start ==> ClientHandshake(c, s) == (s, true)
  {
  }

  // With obliging callbacks a frame stops the session exactly when the reassembly refuses it.
  lemma FrameExact(c: Config, s: Session, f: Frame)
    requires Good(c, s, true) && Obliges(c)
    ensures HandleFrame(c, s, f).1 <==> AcceptAll(START, s.frames + [f], c.rxSize).legal
  {
    hide AcceptAll, Receive, HandleFrame, Sort, AnswerOk, Decode, DecodedSize, Upgraded, Told;
    OpenIs(s);
    AcceptNext(s.frames, f, c.rxSize);
    SortFollowsRules(s.ws, s.frag, c.rxSize, f, Told(s.told));
    FrameFields(c, s, f);
    assert Obliging(c.world(s.turn));
  }

  // Whatever is in rx and arrives: the session goes on exactly when nothing is to be refused.
  lemma {:induction false} HandleExact(c: Config, s: Session)
    requires Good(c, s, true) && Obliges(c)
    ensures HandleWS(c, s).1 <==> !Refused(c, HandleWS(c, s).0)
    decreases |s.rx|
  {
    hide Good, Handshake, HandleFrame, Parse, AcceptAll, RefusesHandshake;
    HandshakeGood(c, s);
    if !s.done { HandshakeExact(c, s); }
    var (s0, go) := Handshake(c, s);
    ParseNothing();
    if go { StillLegal(c, s0); }
    if s.done || (go && s0.rx != [] && s0.done) {
      match Parse(s0.rx)
      case Bad =>
      case Incomplete =>
      case Complete(f, n) =>
        ConsumeGood(c, s0, f, n);
        FrameExact(c, s0, f);
        FrameKeeps(c, s0, f);
        var (s1, goes) := HandleFrame(c, s0, f);
        var s2 := ConsumeFrame(s1, f, n);
        assert s2.frames == s0.frames + [f];
        if goes && s2.rx != [] { HandleExact(c, s2); }
    }
  }

  lemma StillLegal(c: Config, s: Session)
    requires Good(c, s, true)
    ensures AcceptAll(START, s.frames, c.rxSize).legal
  {
  }

  lemma FrameKeeps(c: Config, s: Session, f: Frame)
    ensures HandleFrame(c, s, f).0.frames == s.frames && HandleFrame(c, s, f).0.done == s.done
  {
    hide Sort;
  }

  // A read: in every state a session can be in, it goes on exactly when nothing is refused.
  lemma ReadExact(c: Config, s: Session, bytes: Bytes)
    requires Good(c, s, true) && Obliges(c) && bytes != []
    ensures ReadOnce(c, s, Got(bytes)).1 <==> !Refused(c, ReadOnce(c, s, Got(bytes)).0)
  {
    hide Good, HandleWS, Refused;
    ReceivedGood(c, s, bytes);
    HandleExact(c, s.(rx := s.rx + bytes, received := s.received + bytes));
  }

  // ----- events -----

  lemma {:induction false} ReadAllExact(c: Config, s: Session, ins: seq<SockIn>)
    requires Good(c, s, true) && Obliges(c) && (forall i | 0 <= i < |ins| :: SmoothIn(ins[i]))
    ensures !ReadAll(c, s, ins).1 ==> Refused(c, ReadAll(c, s, ins).0)
    decreases |ins|
  {
    hide Good, ReadOnce, Refused;
    if ins != [] {
      assert SmoothIn(ins[0]);
      ReadOnceGood(c, s, ins[0]);
      var r := ins[0];
      if r.Got? { ReadExact(c, s, r.bytes); } else { OtherReads(c, s, r); }
      if ReadOnce(c, s, ins[0]).1 { ReadAllExact(c, ReadOnce(c, s, ins[0]).0, ins[1..]); }
    }
  }

  lemma OtherReads(c: Config, s: Session, r: SockIn)
    requires Obliges(c) && !r.Got? && SmoothIn(r)
    ensures ReadOnce(c, s, r).1
  {
    assert Obliging(c.world(s.turn));
  }

  lemma WriteGoesOn(c: Config, s: Session, w: SockOut)
    requires Obliges(c) && SmoothOut(w)
    ensures Write(c, s, w).1
  {
    assert Obliging(c.world(s.turn)) && Obliging(c.world(s.turn + 1));
  }

  lemma OutputGoesOn(c: Config, s: Session, w: SockOut)
    requires Obliges(c) && SmoothOut(w)
    ensures Output(c, s, w).1
  {
    hide Write;
    assert Obliging(c.world(s.turn)) && Obliging(c.world(s.turn + 1));
    WriteGoesOn(c, s, w);
    WriteGoesOn(c, Call(c, s).0, w);
  }

  lemma RequestGoesOn(c: Config, s: Session)
    requires Obliges(c)
    ensures RequestUpgrade(c, s).1
  {
    assert Obliging(c.world(s.turn)) && Obliging(c.world(s.turn + 1));
  }

  lemma StepExact(c: Config, s: Session, e: Event)
    requires Good(c, s, true) && s.alive && Obliges(c) && Smooth(e)
    ensures !Step(c, s, e).alive ==> Refused(c, Step(c, s, e))
  {
    hide Good, ReadAll, Write, Output, RequestUpgrade, RefusesTail, RefusesHandshake, AcceptAll;
    assert Obliging(c.world(s.turn));
    match e
    case Readable(ins, w) =>
      if s.writeOnRead { WriteGoesOn(c, Arm(c, s).0.(writeOnRead := false), w); } else { ReadAllExact(c, s, ins); }
    case Writable(w, ins) =>
      if s.readOnWrite {
        var s1 := Arm(c, s).0;
        ArmGood(c, s, true);
        RetryGood(c, s1, false, s1.writeOnRead);
        assert s1.(readOnWrite := false) == s1.(readOnWrite := false, writeOnRead := s1.writeOnRead);
        ReadAllExact(c, s1.(readOnWrite := false), ins);
      } else if s.role == Client && !s.start && !s.done {
        RequestGoesOn(c, s);
        OutputGoesOn(c, RequestUpgrade(c, s).0, w);
      } else {
        OutputGoesOn(c, s, w);
      }
  }

  // Over every run in which nothing outside goes wrong, a session that has stopped was given
  // something to refuse.
  lemma {:induction false} StopsOnlyRefused(c: Config, s: Session, events: seq<Event>)
    requires Good(c, s, s.alive) && Obliges(c) && (forall i | 0 <= i < |events| :: Smooth(events[i]))
    requires !s.alive ==> Refused(c, s)
    ensures !Run(c, s, events).alive ==> Refused(c, Run(c, s, events))
    decreases |events|
  {
    hide Good, Step, Refused, Smooth;
    if events != [] {
      StepGood(c, s, events[0]);
      if s.alive { StepExact(c, s, events[0]); } else { DeadStays(c, s, events[0]); }
      StopsOnlyRefused(c, Step(c, s, events[0]), events[1..]);
    }
  }

  lemma DeadStays(c: Config, s: Session, e: Event)
    requires !s.alive
    ensures Step(c, s, e) == s
  {
  }

  // ======================= what a session delivers =======================

  // Over every run in which nothing outside goes wrong: a session whose handshake is done lives
  // exactly as long as the reassembly refuses none of the frames received, and tells its callback
  // exactly what the reassembly delivers, up to the first frame refused if there is one. Only a
  // frame with a bad length, or one that outgrows the limit before it is complete, can stop it
  // otherwise.
  lemma DeliversExactly(c: Config, role: Role, events: seq<Event>)
    requires Obliges(c) && (forall i | 0 <= i < |events| :: Smooth(events[i]))
    ensures var t := Run(c, Fresh(role), events);
      var r := AcceptAll(START, Decode(t.stream + t.rx), c.rxSize);
      t.done && !RefusesTail(t.rx, c.rxSize) ==>
        (r.legal ==> t.alive) &&
        ((t.alive ==> Settled(t)) ==> Told(t.told) == r.delivered && (t.alive <==> r.legal))
  {
    hide Run, Good, Smooth, Settled, AcceptAll, Decode, Told, RefusesTail;
    FreshGood(c, role);
    RunGood(c, Fresh(role), events);
    StopsOnlyRefused(c, Fresh(role), events);
    var t := Run(c, Fresh(role), events);
    if t.done && !RefusesTail(t.rx, c.rxSize) {
      DeliveredSoFar(c, t);
      AcceptAppend(START, t.frames, Decode(t.rx), c.rxSize);
      if !t.alive {
        AcceptNoMore(AcceptAll(START, t.frames, c.rxSize), Decode(t.rx), c.rxSize);
      } else if Settled(t) {
        SettledDecodes(t);
        AcceptNothing(AcceptAll(START, t.frames, c.rxSize), c.rxSize);
      }
    }
  }

  // So if the other side sent some messages, in any fragments, none larger than the limit, the
  // session lives and its callback is told exactly those messages.
  lemma DeliversWhatWasSent(c: Config, role: Role, events: seq<Event>, ss: seq<Sending>)
    requires Obliges(c) && (forall i | 0 <= i < |events| :: Smooth(events[i]))
    requires forall i | 0 <= i < |ss| :: Proper(ss[i]) && Size(ss[i]) <= c.rxSize
    ensures var t := Run(c, Fresh(role), events);
      t.done && !RefusesTail(t.rx, c.rxSize) && Decode(t.stream + t.rx) == AllFrames(ss) ==>
        t.alive && (Settled(t) ==> Told(t.told) == AllMessages(ss) && t.frag == None && t.ws == [])
  {
    hide Run, Good, Smooth, Settled, AcceptAll, Decode, Told, RefusesTail, AllFrames, AllMessages, Proper, Size;
    FreshGood(c, role);
    RunGood(c, Fresh(role), events);
    DeliversExactly(c, role, events);
    AcceptsFragmentation(START, ss, c.rxSize);
    var t := Run(c, Fresh(role), events);
    DeliveredSoFar(c, t);
    if t.done && t.alive && Settled(t) {
      SettledDecodes(t);
      assert t.frames + [] == t.frames;
      assert [] + AllMessages(ss) == AllMessages(ss);
    }
  }

  lemma DeliveredSoFar(c: Config, s: Session)
    requires Good(c, s, s.alive)
    ensures Told(s.told) == AcceptAll(START, s.frames, c.rxSize).delivered
    ensures s.alive ==> AcceptAll(START, s.frames, c.rxSize).legal
    ensures Decode(s.stream + s.rx) == s.frames + Decode(s.rx)
    ensures DecodedSize(s.stream + s.rx) == |s.stream| + DecodedSize(s.rx)
    ensures s.frag == None ==> s.ws == []
    ensures s.alive ==> AcceptAll(START, s.frames, c.rxSize).open == Open(s)
  {
    hide AcceptAll, Decode, DecodedSize, Told, Flags;
    DecodeAppend(s.stream, s.rx);
  }

  lemma SettledDecodes(s: Session)
    requires s.done && Settled(s)
    ensures Decode(s.rx) == []
  {
    NoneWait(s.rx);
  }

  lemma AcceptNothing(r: Receiver, limit: nat)
    ensures AcceptAll(r, [], limit) == r
  {
  }
}
