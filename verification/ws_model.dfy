/**
 A WebSocket session of src/net/api.c as functions on its state: the handshake of either side,
 the frame loop with its reassembly of fragments, and the events that drive both. What the user's
 callbacks do and whether event masks can be changed comes from an oracle asked turn by turn.
 */
module WsModel {
  import opened Options
  import opened WsFrames

  datatype Role = Peer | Client

  // A parsed request or response, and what its headers say of the upgrade.
  datatype KeyState = Missing | Matching | Wrong
  datatype Http = HttpComplete(size: nat, upgrade: bool, key: KeyState) | HttpParsed | HttpIncomplete | HttpBad

  // One turn: what the callback adds to the output and whether it returns CONTINUE; the answer or
  // request assembled, if it could be; whether the event mask could be set.
  datatype World = World(put: Bytes, goes: bool, built: Option<Bytes>, armed: bool)

  datatype Config = Config(http: Bytes -> Http, rxSize: nat, allowMissing: bool, world: nat -> World)

  datatype Read = Read(message: Message, done: bool)
  datatype Answer = Answer(start: nat, bytes: Bytes)

  datatype Session = Session(
    role: Role, start: bool, done: bool, alive: bool,
    rx: Bytes, tx: Bytes, ws: Bytes, frag: Option<Kind>,
    readOnWrite: bool, writeOnRead: bool, turn: nat,
    // what has happened
    received: Bytes, sent: Bytes,          // all bytes read and written
    hs: Bytes, stream: Bytes,              // consumed for the handshake, and as frames
    frames: seq<Frame>, told: seq<Read>,  // frames consumed, and READ callbacks made
    answer: Option<Answer>)

  function Fresh(role: Role): Session {
    Session(role, false, false, true, [], [], [], None, false, false, 0, [], [], [], [], [], [], None)
  }

  // ----- callbacks and masks -----

  function Call(c: Config, s: Session): (Session, bool) {
    var w := c.world(s.turn);
    (s.(turn := s.turn + 1, tx := s.tx + w.put), w.goes)
  }

  function Arm(c: Config, s: Session): (Session, bool) {
    (s.(turn := s.turn + 1), c.world(s.turn).armed)
  }

  // XAPI_DispatchWSFrame
  function Dispatch(c: Config, s: Session, m: Message): (Session, bool) {
    Call(c, s.(told := s.told + [Read(m, s.done)]))
  }

  // XByteBuffer_Advance over handshake bytes.
  function AdvanceHttp(s: Session, n: nat): (r: Session)
    ensures |r.rx| <= |s.rx|
  {
    var k := if n < |s.rx| then n else |s.rx|;
    s.(rx := s.rx[k..], hs := s.hs + s.rx[..k])
  }

  // ----- handshakes -----

  function AnswerUpgrade(c: Config, s: Session): (r: (Session, bool))
    ensures r.0.rx == s.rx
  {
    match c.world(s.turn).built
    case None => (s, false)
    case Some(bytes) =>
      var (s1, goes) := Call(c, s);
      var s2 := s1.(tx := s1.tx + bytes, answer := Some(Answer(|s1.sent| + |s1.tx|, bytes)));
      if !goes || s2.tx == [] then (s2, false) else Arm(c, s2)
  }

  function RequestUpgrade(c: Config, s: Session): (r: (Session, bool))
    ensures r.0.rx == s.rx
  {
    match c.world(s.turn).built
    case None => (s, false)
    case Some(bytes) =>
      var (s1, goes) := Call(c, s.(start := true));
      var s2 := s1.(tx := s1.tx + bytes);
      if !goes || s2.tx == [] then (s2, false) else Arm(c, s2)
  }

  predicate LooksLikeTls(b: Bytes) { |b| >= 3 && b[0] == 0x16 && b[1] == 0x03 && b[2] <= 0x04 }

  function ServerHandshake(c: Config, s: Session): (r: (Session, bool))
    ensures |r.0.rx| <= |s.rx|
  {
    if s.start then (s, true)
    else if LooksLikeTls(s.rx) then (s, false)
    else
      match c.http(s.rx)
      case HttpComplete(n, upgrade, key) =>
        if !upgrade || (key == Missing && !c.allowMissing) then (s, false)
        else
          var (s1, goes) := Call(c, s.(start := true));
          var s2 := AdvanceHttp(s1, n);
          if !goes then (s2, false) else AnswerUpgrade(c, s2)
      case HttpParsed => (s, true)
      case HttpIncomplete => (s, |s.rx| <= c.rxSize)
      case HttpBad => (s, false)
  }

  function ClientHandshake(c: Config, s: Session): (r: (Session, bool))
    ensures |r.0.rx| <= |s.rx|
  {
    if !s.start then (s, true)
    else
      match c.http(s.rx)
      case HttpComplete(n, upgrade, key) =>
        if !upgrade || key == Wrong || (key == Missing && !c.allowMissing) then (s, false)
        else
          var (s1, armed) := Arm(c, s.(start := false, done := true));
          if !armed then (s1, false)
          else
            var (s2, goes) := Call(c, s1);
            (AdvanceHttp(s2, n), goes)
      case HttpParsed => (s, true)
      case HttpIncomplete => (s, |s.rx| <= c.rxSize)
      case HttpBad => (s, false)
  }

  // ----- frames -----

  // What becomes of a frame: the reassembly state after it, the message to deliver, if any, and
  // whether to go on when there is none.
  datatype Verdict = Verdict(ws: Bytes, frag: Option<Kind>, deliver: Option<Message>, go: bool)

  function Sort(ws: Bytes, frag: Option<Kind>, rxSize: nat, f: Frame): Verdict {
    if IsControl(f.kind) then Verdict(ws, frag, Some(Message(f.kind, f.payload)), true)
    else if frag.Some? then
      var all := ws + f.payload;
      if f.kind != CONTINUATION then Verdict([], None, None, false)
      else if |all| > rxSize then Verdict([], None, None, false)
      else if f.fin then Verdict([], None, Some(Message(frag.value, all)), true)
      else Verdict(all, frag, None, true)
    else if !f.fin then
      if IsData(f.kind) then Verdict(ws + f.payload, Some(f.kind), None, true) else Verdict(ws, frag, None, false)
    else if f.kind == CONTINUATION then Verdict(ws, frag, None, false)
    else Verdict(ws, frag, Some(Message(f.kind, f.payload)), true)
  }

  function HandleFrame(c: Config, s: Session, f: Frame): (r: (Session, bool))
    ensures r.0.rx == s.rx
  {
    var v := Sort(s.ws, s.frag, c.rxSize, f);
    var s1 := s.(ws := v.ws, frag := v.frag);
    match v.deliver
    case Some(m) => Dispatch(c, s1, m)
    case None => (s1, v.go)
  }

  // The frame at the front of rx is consumed.
  function ConsumeFrame(s: Session, f: Frame, n: nat): (r: Session)
    requires n <= |s.rx|
    ensures |r.rx| == |s.rx| - n
  {
    s.(rx := s.rx[n..], stream := s.stream + s.rx[..n], frames := s.frames + [f])
  }

  // The handshake, while it is not done.
  function Handshake(c: Config, s: Session): (r: (Session, bool))
    ensures |r.0.rx| <= |s.rx|
  {
    if s.done then (s, true) else if s.role == Peer then ServerHandshake(c, s) else ClientHandshake(c, s)
  }

  function HandleWS(c: Config, s: Session): (Session, bool)
    decreases |s.rx|
  {
    var (s0, go) := Handshake(c, s);
    if !s.done && (!go || s0.rx == [] || !s0.done) then (s0, go)
    else
      match Parse(s0.rx)
      case Bad => (s0, false)
      case Incomplete => (s0, |s0.rx| <= c.rxSize)
      case Complete(f, n) =>
        var (s1, goes) := HandleFrame(c, s0, f);
        var s2 := ConsumeFrame(s1, f, n);
        if goes && s2.rx != [] then HandleWS(c, s2) else (s2, goes)
  }

  // ----- events -----

  datatype SockIn = Got(bytes: Bytes) | InWantsWrite | InWantsRead | InFailed
  datatype SockOut = Wrote(n: nat) | OutWantsRead | OutWantsWrite | OutFailed

  function ReadOnce(c: Config, s: Session, r: SockIn): (Session, bool) {
    match r
    case InFailed => (s, false)
    case InWantsRead => (s, true)
    case InWantsWrite => Arm(c, s.(readOnWrite := true))
    case Got(bytes) =>
      if bytes == [] then (s, false)
      else HandleWS(c, s.(rx := s.rx + bytes, received := s.received + bytes))
  }

  // Again while the socket has more pending.
  function ReadAll(c: Config, s: Session, ins: seq<SockIn>): (Session, bool)
    decreases |ins|
  {
    if ins == [] then (s, true)
    else
      var (s1, go) := ReadOnce(c, s, ins[0]);
      if go then ReadAll(c, s1, ins[1..]) else (s1, false)
  }

  // The output is all written: the peer's handshake is done, or the callback is told.
  function Written(c: Config, s: Session): (Session, bool) {
    var (s1, armed) := Arm(c, s);
    if !armed then (s1, false)
    else
      var (s2, goes) := if s1.done then Call(c, s1) else if s1.role == Client then Arm(c, s1) else (s1, true);
      if !goes then (s2, false)
      else if s2.role == Peer && s2.start then (s2.(start := false, done := true), true)
      else (s2, true)
  }

  function Write(c: Config, s: Session, w: SockOut): (Session, bool) {
    if s.tx == [] then (s, true)
    else
      match w
      case OutFailed => (s, false)
      case OutWantsWrite => (s, true)
      case OutWantsRead => Arm(c, s.(writeOnRead := true))
      case Wrote(n) =>
        if n == 0 then (s, false)
        else
          var k := if n < |s.tx| then n else |s.tx|;
          var s1 := s.(tx := s.tx[k..], sent := s.sent + s.tx[..k]);
          if s1.tx == [] then Written(c, s1) else (s1, true)
  }

  datatype Event = Readable(ins: seq<SockIn>, w: SockOut) | Writable(w: SockOut, ins: seq<SockIn>)

  function ReadEvent(c: Config, s: Session, ins: seq<SockIn>, w: SockOut): (Session, bool) {
    if s.writeOnRead then
      var (s1, armed) := Arm(c, s);
      if armed then Write(c, s1.(writeOnRead := false), w) else (s1, false)
    else ReadAll(c, s, ins)
  }

  // The callback may fill an empty output first.
  function Output(c: Config, s: Session, w: SockOut): (Session, bool) {
    if s.tx == [] then
      var (s1, goes) := Call(c, s);
      if !goes then (s1, false) else if s1.tx == [] then Arm(c, s1) else Write(c, s1, w)
    else Write(c, s, w)
  }

  function WriteEvent(c: Config, s: Session, w: SockOut, ins: seq<SockIn>): (Session, bool) {
    if s.readOnWrite then
      var (s1, armed) := Arm(c, s);
      if armed then ReadAll(c, s1.(readOnWrite := false), ins) else (s1, false)
    else if s.role == Client && !s.start && !s.done then
      var (s1, go) := RequestUpgrade(c, s);
      if go then Output(c, s1, w) else (s1, false)
    else Output(c, s, w)
  }

  // A session asked to disconnect gets no more events.
  function Step(c: Config, s: Session, e: Event): Session {
    if !s.alive then s
    else
      var (s1, go) := match e
        case Readable(ins, w) => ReadEvent(c, s, ins, w)
        case Writable(w, ins) => WriteEvent(c, s, w, ins);
      s1.(alive := go)
  }

  function Run(c: Config, s: Session, events: seq<Event>): Session
    decreases |events|
  {
    if events == [] then s else Run(c, Step(c, s, events[0]), events[1..])
  }
}
