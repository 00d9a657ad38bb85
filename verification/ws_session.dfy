/**
 A WebSocket session of src/net/api.c as it runs: flags and buffers changed step by step by the
 event handlers. Every method takes the state where the function of WsModel of its name takes it.
 The contents of the three byte buffers are sequences here; ByteBuffers has the buffer itself.
 */
module WsSession {
  import opened Options
  import opened WsFrames
  import opened WsModel
  import opened WsTheorems

  class Session {
    const c: Config
    const role: Role
    var start: bool               // bHandshakeStart
    var done: bool                // bHandshakeDone
    var alive: bool
    var rx: Bytes
    var tx: Bytes
    var ws: Bytes
    var frag: Option<Kind>        // bWSFragStart and eWSFragType
    var readOnWrite: bool
    var writeOnRead: bool
    var turn: nat                 // of the oracle
    ghost var received: Bytes
    ghost var sent: Bytes
    ghost var hs: Bytes
    ghost var stream: Bytes
    ghost var frames: seq<Frame>
    ghost var told: seq<WsModel.Read>
    ghost var answer: Option<Answer>

    ghost function Now(): WsModel.Session
      reads this
    {
      WsModel.Session(role, start, done, alive, rx, tx, ws, frag, readOnWrite, writeOnRead, turn,
                      received, sent, hs, stream, frames, told, answer)
    }

    constructor (c: Config, role: Role)
      ensures Now() == Fresh(role) && this.c == c
    {
      this.c, this.role := c, role;
      start, done, alive, rx, tx, ws, frag := false, false, true, [], [], [], None;
      readOnWrite, writeOnRead, turn := false, false, 0;
      received, sent, hs, stream, frames, told, answer := [], [], [], [], [], [], None;
    }

    // A user callback: what it writes, and whether it wants to go on.
    method CallBack() returns (goes: bool)
      modifies this
      ensures (Now(), goes) == Call(c, old(Now()))
    {
      var w := c.world(turn);
      tx := tx + w.put;
      turn := turn + 1;
      goes := w.goes;
    }

    // XAPI_EnableEvent, XAPI_DisableEvent, XAPI_SetEvents: whether the mask could be set.
    method SetEvents() returns (armed: bool)
      modifies this
      ensures (Now(), armed) == Arm(c, old(Now()))
    {
      armed := c.world(turn).armed;
      turn := turn + 1;
    }

    // XAPI_CB_READ
    method DispatchFrame(m: Message) returns (goes: bool)
      modifies this
      ensures (Now(), goes) == Dispatch(c, old(Now()), m)
    {
      told := told + [WsModel.Read(m, done)];
      goes := CallBack();
    }

    method AdvanceRx(n: nat)
      modifies this
      ensures Now() == AdvanceHttp(old(Now()), n)
    {
      var k := if n < |rx| then n else |rx|;
      hs := hs + rx[..k];
      rx := rx[k..];
    }

    // ----- handshakes -----

    method AnswerUpgrade() returns (go: bool)
      modifies this
      ensures (Now(), go) == WsModel.AnswerUpgrade(c, old(Now()))
    {
      var built := c.world(turn).built;
      if built == None { return false; }
      var goes := CallBack();
      answer := Some(Answer(|sent| + |tx|, built.value));
      tx := tx + built.value;
      if !goes { return false; }
      if tx == [] { return false; }
      go := SetEvents();
    }

    method RequestUpgrade() returns (go: bool)
      modifies this
      ensures (Now(), go) == WsModel.RequestUpgrade(c, old(Now()))
    {
      var built := c.world(turn).built;
      if built == None { return false; }
      start := true;
      var goes := CallBack();
      tx := tx + built.value;
      if !goes { return false; }
      if tx == [] { return false; }
      go := SetEvents();
    }

    method ServerHandshake() returns (go: bool)
      modifies this
      ensures (Now(), go) == WsModel.ServerHandshake(c, old(Now()))
    {
      hide LooksLikeTls, WsModel.AnswerUpgrade, AdvanceHttp, Call;
      if start { return true; }
      if LooksLikeTls(rx) { return false; }
      match c.http(rx)
      case HttpComplete(n, upgrade, key) =>
        if !upgrade { return false; }
        if key == Missing && !c.allowMissing { return false; }
        start := true;
        var goes := CallBack();
        AdvanceRx(n);
        if !goes { return false; }
        go := AnswerUpgrade();
      case HttpParsed => go := true;
      case HttpIncomplete => go := |rx| <= c.rxSize;
      case HttpBad => go := false;
    }

    method ClientHandshake() returns (go: bool)
      modifies this
      ensures (Now(), go) == WsModel.ClientHandshake(c, old(Now()))
    {
      hide AdvanceHttp, Call, Arm;
      if !start { return true; }
      match c.http(rx)
      case HttpComplete(n, upgrade, key) =>
        if !upgrade || key == Wrong { return false; }
        if key == Missing && !c.allowMissing { return false; }
        start := false;
        done := true;
        var armed := SetEvents();
        if !armed { return false; }
        go := CallBack();
        AdvanceRx(n);
      case HttpParsed => go := true;
      case HttpIncomplete => go := |rx| <= c.rxSize;
      case HttpBad => go := false;
    }

    // ----- frames -----

    // XAPI_ResetWSFragments
    method ResetFragments()
      modifies this`ws, this`frag
      ensures ws == [] && frag == None
    {
      ws := [];
      frag := None;
    }

    // The branches of XAPI_HandleWS on a complete frame, up to the dispatch of a whole message.
    method Reassemble(f: Frame) returns (whole: Option<Message>, go: bool)
      modifies this`ws, this`frag
      ensures Verdict(ws, frag, whole, go) == Sort(old(ws), old(frag), c.rxSize, f)
    {
      whole, go := None, true;
      if IsControl(f.kind) {
        whole := Some(Message(f.kind, f.payload));
      } else if frag.Some? {
        if f.kind != CONTINUATION {
          ResetFragments();
          go := false;
        } else {
          ws := ws + f.payload;
          if |ws| > c.rxSize {
            ResetFragments();
            go := false;
          } else if f.fin {
            whole := Some(Message(frag.value, ws));
            ResetFragments();
          }
        }
      } else if !f.fin {
        if !IsData(f.kind) {
          go := false;
        } else {
          ws := ws + f.payload;
          frag := Some(f.kind);
        }
      } else if f.kind == CONTINUATION {
        go := false;
      } else {
        whole := Some(Message(f.kind, f.payload));
      }
    }

    method HandleFrame(f: Frame) returns (go: bool)
      modifies this
      ensures (Now(), go) == WsModel.HandleFrame(c, old(Now()), f)
    {
      hide Dispatch, Sort;
      var whole;
      whole, go := Reassemble(f);
      if whole.Some? { go := DispatchFrame(whole.value); }
    }

    method Shake() returns (go: bool)
      modifies this
      ensures (Now(), go) == Handshake(c, old(Now()))
    {
      hide WsModel.ServerHandshake, WsModel.ClientHandshake;
      if done { return true; }
      if role == Peer { go := ServerHandshake(); } else { go := ClientHandshake(); }
    }

    method Consume(f: Frame, n: nat)
      requires n <= |rx|
      modifies this
      ensures Now() == ConsumeFrame(old(Now()), f, n)
    {
      stream := stream + rx[..n];
      frames := frames + [f];
      rx := rx[n..];
    }

    method HandleWS() returns (go: bool)
      modifies this
      ensures (Now(), go) == WsModel.HandleWS(c, old(Now()))
      decreases |rx|
    {
      hide WsModel.HandleWS, Handshake, WsModel.HandleFrame, ConsumeFrame, Parse;
      HandleUnfolds(c, Now());
      if !done {
        go := Shake();
        if !go { return; }
        if |rx| == 0 { return; }
        if !done { return; }
      } else {
        DoneAlready(c, Now());
      }
      match Parse(rx)
      case Bad => go := false;
      case Incomplete => go := |rx| <= c.rxSize;
      case Complete(f, n) =>
        go := HandleFrame(f);
        Consume(f, n);
        if go && |rx| > 0 { go := HandleWS(); }
    }

    // ----- events -----

    method ReadOnce(r: SockIn) returns (go: bool)
      modifies this
      ensures (Now(), go) == WsModel.ReadOnce(c, old(Now()), r)
    {
      hide WsModel.HandleWS, Arm;
      match r
      case InFailed => go := false;
      case InWantsRead => go := true;
      case InWantsWrite =>
        readOnWrite := true;
        go := SetEvents();
      case Got(bytes) =>
        if bytes == [] { return false; }
        rx := rx + bytes;
        received := received + bytes;
        go := HandleWS();
    }

    // XAPI_Read: again while the socket has more pending.
    method Read(ins: seq<SockIn>) returns (go: bool)
      modifies this
      ensures (Now(), go) == WsModel.ReadAll(c, old(Now()), ins)
    {
      hide WsModel.ReadOnce;
      go := true;
      var i := 0;
      assert ins[0..] == ins;
      while go && i < |ins|
        invariant 0 <= i <= |ins|
        invariant if go then WsModel.ReadAll(c, Now(), ins[i..]) == WsModel.ReadAll(c, old(Now()), ins)
                  else (Now(), go) == WsModel.ReadAll(c, old(Now()), ins)
        decreases |ins| - i, go
      {
        assert ins[i..][0] == ins[i] && ins[i..][1..] == ins[i + 1..];
        go := ReadOnce(ins[i]);
        i := i + 1;
      }
      if go { assert ins[i..] == []; }
    }

    method Write(w: SockOut) returns (go: bool)
      modifies this
      ensures (Now(), go) == WsModel.Write(c, old(Now()), w)
    {
      hide Arm, Call;
      if |tx| == 0 { return true; }
      match w
      case OutFailed => go := false;
      case OutWantsWrite => go := true;
      case OutWantsRead =>
        writeOnRead := true;
        go := SetEvents();
      case Wrote(n) =>
        if n == 0 { return false; }
        var k := if n < |tx| then n else |tx|;
        sent := sent + tx[..k];
        tx := tx[k..];
        if |tx| > 0 { return true; }
        go := WriteDone();
    }

    // The part of XAPI_Write after the last byte.
    method WriteDone() returns (go: bool)
      modifies this
      ensures (Now(), go) == Written(c, old(Now()))
    {
      hide Arm, Call;
      var armed := SetEvents();
      if !armed { return false; }
      if done {
        var goes := CallBack();
        if !goes { return false; }
      } else if role == Client {
        var goes := SetEvents();
        if !goes { return false; }
      }
      if role == Peer && start {
        start := false;
        done := true;
      }
      go := true;
    }

    method ReadEvent(ins: seq<SockIn>, w: SockOut) returns (go: bool)
      modifies this
      ensures (Now(), go) == WsModel.ReadEvent(c, old(Now()), ins, w)
    {
      hide Arm, WsModel.Write, ReadAll;
      if writeOnRead {
        var armed := SetEvents();
        if !armed { return false; }
        writeOnRead := false;
        go := Write(w);
      } else {
        go := Read(ins);
      }
    }

    method WriteEvent(w: SockOut, ins: seq<SockIn>) returns (go: bool)
      modifies this
      ensures (Now(), go) == WsModel.WriteEvent(c, old(Now()), w, ins)
    {
      hide Arm, Output, ReadAll, WsModel.RequestUpgrade;
      if readOnWrite {
        var armed := SetEvents();
        if !armed { return false; }
        readOnWrite := false;
        go := Read(ins);
        return;
      }
      if role == Client && !start && !done {
        go := RequestUpgrade();
        if !go { return; }
      }
      go := WriteOut(w);
    }

    // The part of XAPI_WriteEvent once the upgrade is under way.
    method WriteOut(w: SockOut) returns (go: bool)
      modifies this
      ensures (Now(), go) == Output(c, old(Now()), w)
    {
      hide Arm, Call, WsModel.Write;
      if |tx| == 0 {
        go := CallBack();
        if !go { return; }
        if |tx| == 0 {
          go := SetEvents();
          return;
        }
      }
      go := Write(w);
    }

    // One event of the engine; a session asked to disconnect gets no more.
    method Serve(e: Event)
      requires Good(c, Now(), alive)
      modifies this
      ensures Now() == Step(c, old(Now()), e)
      ensures Good(c, Now(), alive) && (old(done) ==> done)
    {
      hide Good, WsModel.ReadEvent, WsModel.WriteEvent;
      StepGood(c, Now(), e);
      if alive {
        var go;
        match e {
          case Readable(ins, w) => go := ReadEvent(ins, w);
          case Writable(w, ins) => go := WriteEvent(w, ins);
        }
        alive := go;
      }
    }
  }

  lemma DoneAlready(c: Config, s: WsModel.Session)
    requires s.done
    ensures Handshake(c, s) == (s, true)
  {
  }

  lemma HandleUnfolds(c: Config, s: WsModel.Session)
    ensures var (s0, go) := Handshake(c, s);
      WsModel.HandleWS(c, s) ==
        if !s.done && (!go || s0.rx == [] || !s0.done) then (s0, go)
        else
          match Parse(s0.rx)
          case Bad => (s0, false)
          case Incomplete => (s0, |s0.rx| <= c.rxSize)
          case Complete(f, n) =>
            var (s1, goes) := WsModel.HandleFrame(c, s0, f);
            var s2 := ConsumeFrame(s1, f, n);
            if goes && s2.rx != [] then WsModel.HandleWS(c, s2) else (s2, goes)
  {
    hide Handshake, WsModel.HandleFrame, Parse;
  }
}
