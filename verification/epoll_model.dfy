/**
 The epoll build of src/net/event.c as functions on its whole state: the events in memory, the
 descriptors the kernel knows, the hash index, and the batch that XEvents_Service works through
 while user callbacks register and delete events.
 */
module EpollModel {
  import opened Options

  // The address of an xevent_data_t; malloc may hand a freed one out again.
  type Ptr = nat

  datatype Kind = Timer | EventFd | Other

  // `serial` tells apart the registrations that share an address one after the other.
  datatype Data = Data(fd: int, kind: Kind, events: Ready, serial: nat)

  // The epoll flags the engine looks at.
  datatype Ready = Ready(rdhup: bool, hup: bool, err: bool, pri: bool, writable: bool, readable: bool)

  datatype Reason = ERROR | READ | WRITE | HUNGED | CLOSED | CLEAR | EXCEPTION | TIMEOUT | USER

  // A callback made, and whether its event was still registered (for CLEAR: still in memory).
  datatype Call = Call(ptr: Ptr, reason: Reason, live: bool)

  datatype Slot = Slot(ptr: Option<Ptr>, ready: Ready)

  // A slot's turn: the event, and everything from outside that serving it depended on.
  datatype Turn = Turn(ptr: Ptr, timer: bool, ready: Ready, v: Serving)

  datatype State = State(
    mem: map<Ptr, Data>,
    kernel: map<int, Ptr>,
    index: map<int, Ptr>,
    useHash: bool,
    batch: seq<Slot>,
    wait: nat,
    count: nat,
    serial: nat,
    calls: seq<Call>,
    broken: bool,       // a callback broke the rules below
    served: seq<Turn>,  // the slots served
    fault: bool)        // the engine used an event that was gone

  const DISCONNECT := -1
  const CONTINUE := 0
  const RELOOP := 1
  const ACCEPT := 2
  const USERCALL := 3
  const BREAK := 4

  // ----- what the user does -----

  // What a callback may do with the engine before it returns. Removing an event calls back with
  // CLEAR, in which more may be done.
  datatype Act =
    | Register(ptr: Ptr, fd: int, kind: Kind, events: Ready, ctlOk: bool, hashOk: bool)
    | Change(ptr: Ptr, events: Ready, ctlOk: bool)
    | Remove(ptr: Ptr, clear: Acts)

  datatype Acts = Nil | Cons(head: Act, tail: Acts)

  // A callback's acts and its return code, and what CLEAR does should the engine delete the
  // event because of that code; or USERCALL, and the callback after that.
  type Code = c: int | c != USERCALL witness 0
  datatype Reaction = Return(acts: Acts, code: Code, clear: Acts) | Again(acts: Acts, next: Reaction)

  // Everything from outside that serving one event of a batch depends on.
  datatype Serving = Serving(timerRead: bool, first: Reaction, second: Reaction, clear: Acts)

  // ----- registration -----

  predicate Registered(s: State, p: Ptr) {
    p in s.mem && s.mem[p].fd in s.kernel && s.kernel[s.mem[p].fd] == p
  }

  // The registration that had this serial number is still there.
  predicate Same(s: State, p: Ptr, serial: nat) { Registered(s, p) && s.mem[p].serial == serial }

  // XEvents_RegisterEvent; whatever fails leaves everything as it was.
  function Add(s: State, p: Ptr, fd: int, kind: Kind, events: Ready, ctlOk: bool, hashOk: bool): State {
    if fd < 0 then s
    else if !ctlOk || fd in s.kernel then s
    else if s.useHash && (!hashOk || fd in s.index) then s
    else
      s.(mem := s.mem[p := Data(fd, kind, events, s.serial)], kernel := s.kernel[fd := p],
         index := if s.useHash then s.index[fd := p] else s.index,
         count := s.count + 1, serial := s.serial + 1)
  }

  function Modify(s: State, p: Ptr, events: Ready, ctlOk: bool): State
    requires p in s.mem
  {
    var fd := s.mem[p].fd;
    if fd < 0 || !ctlOk || fd !in s.kernel then s
    else s.(kernel := s.kernel[fd := p], mem := s.mem[p := s.mem[p].(events := events)])
  }

  // ----- deletion -----

  // No slot of the batch in progress still points to p.
  function Forget(slots: seq<Slot>, n: nat, p: Ptr): (r: seq<Slot>)
    ensures |r| == |slots|
    ensures forall i | 0 <= i < |slots| ::
      r[i] == if i < n && slots[i].ptr == Some(p) then slots[i].(ptr := None) else slots[i]
  {
    seq(|slots|, i requires 0 <= i < |slots| =>
      if i < n && slots[i].ptr == Some(p) then slots[i].(ptr := None) else slots[i])
  }

  // XEvents_Delete up to the clear callback.
  function Unregister(s: State, p: Ptr): State
    requires p in s.mem
  {
    var fd := s.mem[p].fd;
    var s1 := s.(batch := Forget(s.batch, s.wait, p));
    var s2 := if fd >= 0 && fd in s1.kernel then s1.(kernel := s1.kernel - {fd}, count := if s1.count > 0 then s1.count - 1 else 0) else s1;
    s2.(index := if s.useHash && fd != -1 then s2.index - {fd} else s2.index)
  }

  // The event that is cleared: the one the hash finds, else p itself.
  function Found(s: State, p: Ptr): Ptr
    requires p in s.mem
  {
    var fd := s.mem[p].fd;
    if s.useHash && fd != -1 && fd in s.index then s.index[fd] else p
  }

  function Closed(s: State, p: Ptr): State {
    if p in s.mem && s.mem[p].kind != Other then s.(mem := s.mem[p := s.mem[p].(fd := -1)]) else s
  }

  // XEvents_ClearCb: the callback, which may do more, and then the event is freed.
  function Cleared(s: State, q: Ptr, clear: Acts): State
    decreases clear, 1
  {
    var s1 := Closed(s, q);
    var s2 := Perform(s1.(calls := s1.calls + [Call(q, CLEAR, q in s1.mem)]), clear);
    s2.(mem := s2.mem - {q})
  }

  function Delete(s: State, p: Ptr, clear: Acts): State
    requires p in s.mem
    decreases clear, 2
  {
    Cleared(Unregister(s, p), Found(s, p), clear)
  }

  // ----- callbacks -----

  // The rules: malloc hands out free addresses, and only registered events are changed or removed.
  function Do(s: State, a: Act): State
    decreases a, 3
  {
    match a
    case Register(p, fd, kind, events, ctlOk, hashOk) =>
      if p in s.mem then s.(broken := true) else Add(s, p, fd, kind, events, ctlOk, hashOk)
    case Change(p, events, ctlOk) =>
      if !Registered(s, p) then s.(broken := true) else Modify(s, p, events, ctlOk)
    case Remove(p, clear) =>
      if !Registered(s, p) then s.(broken := true) else Delete(s, p, clear)
  }

  function Perform(s: State, acts: Acts): State
    decreases acts, 0
  {
    match acts
    case Nil => s
    case Cons(a, rest) => Perform(Do(s, a), rest)
  }

  // A call, after which the acts of the user.
  function Called(s: State, p: Ptr, serial: nat, reason: Reason, acts: Acts): State {
    Perform(s.(calls := s.calls + [Call(p, reason, Same(s, p, serial))], fault := s.fault || !Same(s, p, serial)), acts)
  }

  // A deletion by the engine itself.
  function Drop(s: State, p: Ptr, serial: nat, clear: Acts): State {
    if Same(s, p, serial) then Delete(s, p, clear) else s.(fault := true)
  }

  // The rule for an event's own callback: with the event gone, only return a code that makes the
  // engine leave it alone.
  function Judge(s: State, p: Ptr, serial: nat, leaves: bool): State {
    if !Same(s, p, serial) && !leaves then s.(broken := true) else s
  }

  // The loop of XEvents_EventCb while the callback asks for USER.
  function UserCalls(s: State, p: Ptr, serial: nat, r: Reaction): (State, int)
    decreases r
  {
    var s1 := Called(s, p, serial, USER, r.acts);
    match r
    case Return(_, code, _) => (Judge(s1, p, serial, code != CONTINUE), code)
    case Again(_, next) => UserCalls(Judge(s1, p, serial, false), p, serial, next)
  }

  function EventCb(s: State, p: Ptr, serial: nat, reason: Reason, r: Reaction): (State, int) {
    var s1 := Called(s, p, serial, reason, r.acts);
    match r
    case Return(_, code, clear) =>
      var s2 := Judge(s1, p, serial, code > DISCONNECT && code != CONTINUE && code != ACCEPT);
      if code == ACCEPT then (s2, CONTINUE)
      else if code <= DISCONNECT then (Drop(s2, p, serial, clear), DISCONNECT)
      else (s2, code)
    case Again(_, next) => UserCalls(Judge(s1, p, serial, false), p, serial, next)
  }

  // ----- the service loop -----

  function TimerService(s: State, p: Ptr, serial: nat, ready: Ready, v: Serving): (State, int) {
    if ready.readable && v.timerRead then EventCb(s, p, serial, TIMEOUT, v.first)
    else
      var s1 := EventCb(s, p, serial, ERROR, v.first).0;
      (Drop(s1, p, serial, v.clear), RELOOP)
  }

  function ServiceCb(s: State, p: Ptr, ready: Ready, v: Serving): (State, int) {
    if p !in s.mem then (s.(fault := true), RELOOP)
    else
      var serial := s.mem[p].serial;
      var s0 := s.(mem := s.mem[p := s.mem[p].(events := ready)]);
      if s.mem[p].kind == Timer then TimerService(s0, p, serial, ready, v)
      else if ready.rdhup then EventCb(s0, p, serial, CLOSED, v.first)
      else if ready.hup then EventCb(s0, p, serial, HUNGED, v.first)
      else if ready.err then EventCb(s0, p, serial, ERROR, v.first)
      else if ready.pri then EventCb(s0, p, serial, EXCEPTION, v.first)
      else
        var (s1, ret) := if ready.writable then EventCb(s0, p, serial, WRITE, v.first) else (s0, CONTINUE);
        if ret != CONTINUE then (s1, ret)
        else if ready.readable then EventCb(s1, p, serial, READ, v.second)
        else (s1, CONTINUE)
  }

  predicate IsTimer(s: State, p: Ptr) { p in s.mem && s.mem[p].kind == Timer }

  function Serve(s: State, p: Ptr, ready: Ready, v: Serving): (State, int) {
    var (s1, ret) := ServiceCb(s, p, ready, v);
    (s1.(served := s1.served + [Turn(p, IsTimer(s, p), ready, v)]), ret)
  }

  function Loop(s: State, n: nat, i: nat, v: nat -> Serving): (State, int)
    decreases if i < n then n - i else 0
  {
    if i >= n || i >= |s.batch| then (s, CONTINUE)
    else if s.batch[i].ptr == None then Loop(s, n, i + 1, v)
    else
      var (s1, ret) := Serve(s, s.batch[i].ptr.value, s.batch[i].ready, v(i));
      if ret != CONTINUE then (s1, ret) else Loop(s1, n, i + 1, v)
  }

  // The kernel fills the front of the array; a callback may stop the loop.
  function Service(s: State, slots: seq<Slot>, v: nat -> Serving): (State, bool)
    requires |slots| <= |s.batch|
  {
    var (s1, ret) := Loop(s.(batch := slots + s.batch[|slots|..], wait := |slots|), |slots|, 0, v);
    (s1.(wait := 0), ret == BREAK)
  }

  // ======================= what always holds =======================

  ghost predicate Inv(s: State) {
    && s.wait <= |s.batch|
    && s.count == |s.kernel|
    && (forall fd | fd in s.kernel :: fd >= 0 && s.kernel[fd] in s.mem && s.mem[s.kernel[fd]].fd == fd)
    && (s.useHash ==> s.index == s.kernel)
    && (forall p | p in s.mem :: s.mem[p].serial < s.serial)
    // every pointer left in the batch is that of a registered event
    && (forall i | 0 <= i < s.wait && s.batch[i].ptr.Some? :: Registered(s, s.batch[i].ptr.value))
  }

  // What the user's acts keep: nothing goes wrong in the engine, every callback is made on a live
  // event, and events being cleared stay in memory, unregistered.
  ghost predicate Keeps(s: State, t: State) {
    && Inv(t)
    && t.wait == s.wait && |t.batch| == |s.batch| && t.useHash == s.useHash
    && t.fault == s.fault && t.served == s.served && (s.broken ==> t.broken)
    && s.calls <= t.calls && (forall i | |s.calls| <= i < |t.calls| :: t.calls[i].live)
    && (forall p | p in s.mem && !Registered(s, p) :: p in t.mem && t.mem[p] == s.mem[p] && !Registered(t, p))
  }

  lemma KeepsTransitive(s: State, t: State, u: State)
    requires Keeps(s, t) && Keeps(t, u)
    ensures Keeps(s, u)
  {
    hide Inv, Registered;
    forall i | |s.calls| <= i < |u.calls| ensures u.calls[i].live {
      if i < |t.calls| { assert u.calls[i] == t.calls[i]; }
    }
  }

  lemma Added(s: State, p: Ptr, fd: int, kind: Kind, events: Ready, ctlOk: bool, hashOk: bool)
    requires Inv(s) && p !in s.mem
    ensures var t, d := Add(s, p, fd, kind, events, ctlOk, hashOk), Data(fd, kind, events, s.serial);
      t == s ||
      (fd >= 0 && fd !in s.kernel && |s.kernel[fd := p]| == |s.kernel| + 1 &&
       t == s.(mem := s.mem[p := d], kernel := s.kernel[fd := p], index := if s.useHash then s.kernel[fd := p] else s.index,
               count := |s.kernel| + 1, serial := s.serial + 1))
  {
    assert s.kernel[fd := p].Keys == s.kernel.Keys + {fd};
  }

  lemma AddInv(s: State, p: Ptr, fd: int, kind: Kind, events: Ready, ctlOk: bool, hashOk: bool)
    requires Inv(s) && p !in s.mem
    ensures var t := Add(s, p, fd, kind, events, ctlOk, hashOk);
      Inv(t) && forall q | q in s.mem :: q in t.mem && t.mem[q] == s.mem[q] && Registered(t, q) == Registered(s, q)
  {
    hide Add;
    Added(s, p, fd, kind, events, ctlOk, hashOk);
    var t, d := Add(s, p, fd, kind, events, ctlOk, hashOk), Data(fd, kind, events, s.serial);
    if t != s {
      forall q | q in s.mem ensures t.mem[q] == s.mem[q] && Registered(t, q) == Registered(s, q) {
        NewcomerElsewhere(s, t, p, d, q);
      }
      hide Registered;
    }
  }

  lemma AddKeeps(s: State, p: Ptr, fd: int, kind: Kind, events: Ready, ctlOk: bool, hashOk: bool)
    requires Inv(s) && p !in s.mem
    ensures Keeps(s, Add(s, p, fd, kind, events, ctlOk, hashOk))
  {
    hide Inv, Registered, Add;
    AddInv(s, p, fd, kind, events, ctlOk, hashOk);
    Added(s, p, fd, kind, events, ctlOk, hashOk);
  }

  lemma NewcomerElsewhere(s: State, t: State, p: Ptr, d: Data, q: Ptr)
    requires p !in s.mem && q in s.mem && d.fd !in s.kernel
    requires t.mem == s.mem[p := d] && t.kernel == s.kernel[d.fd := p]
    ensures t.mem[q] == s.mem[q] && Registered(t, q) == Registered(s, q)
  {
  }

  lemma ModifyKeeps(s: State, p: Ptr, events: Ready, ctlOk: bool)
    requires Inv(s) && Registered(s, p)
    ensures Keeps(s, Modify(s, p, events, ctlOk))
  {
    var t := Modify(s, p, events, ctlOk);
    if t != s {
      assert t.kernel == s.kernel;
      forall q | q in s.mem ensures Registered(t, q) == Registered(s, q) {}
    }
  }

  lemma Unregistered(s: State, p: Ptr)
    requires Inv(s) && Registered(s, p)
    ensures var t, fd := Closed(Unregister(s, p), p), s.mem[p].fd;
      && t.mem == (if s.mem[p].kind != Other then s.mem[p := s.mem[p].(fd := -1)] else s.mem)
      && t.kernel == s.kernel - {fd} && t.index == (if s.useHash then s.kernel - {fd} else s.index)
      && t.batch == Forget(s.batch, s.wait, p) && t.count == |t.kernel|
      && t == s.(mem := t.mem, kernel := t.kernel, index := t.index, batch := t.batch, count := t.count)
  {
    hide Forget;
    assert (s.kernel - {s.mem[p].fd}).Keys == s.kernel.Keys - {s.mem[p].fd};
  }

  // Once unregistered, p is nowhere but in memory.
  lemma UnregisterKeeps(s: State, p: Ptr)
    requires Inv(s) && Registered(s, p)
    ensures var t := Closed(Unregister(s, p), p);
      Keeps(s, t) && p in t.mem && !Registered(t, p) && t.calls == s.calls
  {
    hide Closed, Unregister;
    Unregistered(s, p);
    var t := Closed(Unregister(s, p), p);
    forall q | q in s.mem && q != p ensures t.mem[q] == s.mem[q] && Registered(t, q) == Registered(s, q) {
      OtherStays(s, t, p, q);
    }
    assert forall i | 0 <= i < t.wait && t.batch[i].ptr.Some? :: t.batch[i].ptr == s.batch[i].ptr && t.batch[i].ptr != Some(p);
  }

  lemma OtherStays(s: State, t: State, p: Ptr, q: Ptr)
    requires Registered(s, p) && q in s.mem && q != p && p in s.mem
    requires t.mem == s.mem || t.mem == s.mem[p := s.mem[p].(fd := -1)]
    requires t.kernel == s.kernel - {s.mem[p].fd}
    ensures t.mem[q] == s.mem[q] && Registered(t, q) == Registered(s, q)
  {
  }

  lemma {:induction false} DeleteKeeps(s: State, p: Ptr, clear: Acts)
    requires Inv(s) && Registered(s, p)
    ensures Keeps(s, Delete(s, p, clear)) && p !in Delete(s, p, clear).mem
    decreases clear, 2
  {
    assert p in s.mem;
    hide Perform, Inv, Unregister, Closed, Found, Registered, Keeps;
    UnregisterKeeps(s, p);
    var t := Closed(Unregister(s, p), p);
    var t1 := t.(calls := t.calls + [Call(p, CLEAR, true)]);
    KeepsInv(s, t);
    LoggedKeeps(t, p, CLEAR);
    KeepsTransitive(s, t, t1);
    KeepsInv(t, t1);
    PerformKeeps(t1, clear);
    var u := Perform(t1, clear);
    KeepsTransitive(s, t1, u);
    LoggedRegistered(t, t1.calls, p);
    StillHeld(t1, u, p);
    FreedKeeps(u, p);
    FreeKeepsAll(s, u, p);
  }

  lemma KeepsInv(s: State, t: State)
    requires Keeps(s, t)
    ensures Inv(t)
  {
  }

  lemma StillHeld(s: State, t: State, p: Ptr)
    requires Keeps(s, t) && p in s.mem && !Registered(s, p)
    ensures Inv(t) && p in t.mem && !Registered(t, p)
  {
  }

  // A live call recorded.
  lemma LoggedKeeps(s: State, p: Ptr, reason: Reason)
    requires Inv(s)
    ensures Keeps(s, s.(calls := s.calls + [Call(p, reason, true)]))
  {
    LoggedInv(s, s.calls + [Call(p, reason, true)]);
  }

  lemma LoggedInv(s: State, calls: seq<Call>)
    requires Inv(s)
    ensures Inv(s.(calls := calls)) && forall q | q in s.mem :: Registered(s.(calls := calls), q) == Registered(s, q)
  {
  }

  lemma LoggedRegistered(s: State, calls: seq<Call>, p: Ptr)
    ensures Registered(s.(calls := calls), p) == Registered(s, p)
  {
  }

  // Freeing an unregistered event.
  lemma FreedKeeps(s: State, p: Ptr)
    requires Inv(s) && p in s.mem && !Registered(s, p)
    ensures Inv(s.(mem := s.mem - {p}))
    ensures forall q | q in s.mem && q != p :: Registered(s.(mem := s.mem - {p}), q) == Registered(s, q)
  {
    var t := s.(mem := s.mem - {p});
    forall q | q in s.mem && q != p ensures Registered(t, q) == Registered(s, q) {}
  }

  lemma FreeKeepsAll(s: State, u: State, p: Ptr)
    requires Keeps(s, u) && Registered(s, p) && Inv(u.(mem := u.mem - {p}))
    requires forall q | q in u.mem && q != p :: Registered(u.(mem := u.mem - {p}), q) == Registered(u, q)
    ensures Keeps(s, u.(mem := u.mem - {p}))
  {
    hide Inv, Registered;
  }

  lemma {:induction false} DoKeeps(s: State, a: Act)
    requires Inv(s)
    ensures Keeps(s, Do(s, a))
    decreases a, 3
  {
    hide Inv, Registered, Add, Modify, Delete;
    match a
    case Register(p, fd, kind, events, ctlOk, hashOk) =>
      if p in s.mem { BrokenKeeps(s); } else { AddKeeps(s, p, fd, kind, events, ctlOk, hashOk); }
    case Change(p, events, ctlOk) =>
      if Registered(s, p) { ModifyKeeps(s, p, events, ctlOk); } else { BrokenKeeps(s); }
    case Remove(p, clear) =>
      if Registered(s, p) { DeleteKeeps(s, p, clear); } else { BrokenKeeps(s); }
  }

  lemma BrokenKeeps(s: State)
    requires Inv(s)
    ensures Keeps(s, s.(broken := true))
  {
  }

  lemma SelfKeeps(s: State)
    requires Inv(s)
    ensures Keeps(s, s)
  {
  }

  // Whatever the user does inside a callback, however deeply callbacks nest.
  lemma {:induction false} PerformKeeps(s: State, acts: Acts)
    requires Inv(s)
    ensures Keeps(s, Perform(s, acts))
    decreases acts, 0
  {
    hide Inv, Registered, Do;
    match acts
    case Nil => SelfKeeps(s);
    case Cons(a, rest) =>
      DoKeeps(s, a);
      PerformKeeps(Do(s, a), rest);
      KeepsTransitive(s, Do(s, a), Perform(Do(s, a), rest));
  }
}
