/**
 What holds over every run of the epoll engine: callbacks are made on live events only, exactly the
 events of a batch that are still there at their turn are served, and when the engine touches an
 event that is gone.
 */
module EpollTheorems {
  import opened Options
  import opened EpollModel
  import opened EpollFates

  // ======================= no callback on a dead event =======================

  ghost predicate Live(s: State) {
    Inv(s) && (!s.broken ==> forall i | 0 <= i < |s.calls| :: s.calls[i].live)
  }

  ghost predicate Onwards(s: State, t: State) {
    && Live(t)
    && t.wait == s.wait && |t.batch| == |s.batch| && (s.broken ==> t.broken) && s.calls <= t.calls
  }

  lemma KeepsLive(s: State, t: State)
    requires Live(s) && Keeps(s, t)
    ensures Onwards(s, t)
  {
    hide Inv, Registered;
    forall i | 0 <= i < |t.calls| && !t.broken ensures t.calls[i].live {
      if i < |s.calls| { assert t.calls[i] == s.calls[i]; }
    }
  }

  lemma OnwardsTransitive(s: State, t: State, u: State)
    requires Onwards(s, t) && Onwards(t, u)
    ensures Onwards(s, u)
  {
    hide Live;
  }

  lemma OnwardsLive(s: State, t: State)
    requires Onwards(s, t)
    ensures Live(t) && (s.broken ==> t.broken)
  {
  }

  lemma CalledLive(s: State, p: Ptr, serial: nat, reason: Reason, acts: Acts)
    requires Live(s) && (s.broken || Same(s, p, serial))
    ensures Onwards(s, Called(s, p, serial, reason, acts))
  {
    hide Inv, Registered, Same, Keeps, Evolves;
    var t := s.(calls := s.calls + [Call(p, reason, Same(s, p, serial))], fault := s.fault || !Same(s, p, serial));
    NotedEvolves(s, t.calls, t.served, t.broken, t.fault);
    assert Onwards(s, t);
    PerformKeeps(t, acts);
    KeepsLive(t, Perform(t, acts));
    OnwardsTransitive(s, t, Perform(t, acts));
  }

  lemma JudgeLive(s: State, p: Ptr, serial: nat, leaves: bool)
    requires Live(s)
    ensures Onwards(s, Judge(s, p, serial, leaves))
    ensures var t := Judge(s, p, serial, leaves);
      Same(t, p, serial) == Same(s, p, serial) && (t.broken || leaves || Same(t, p, serial))
  {
    hide Inv, Same, Evolves;
    NotedEvolves(s, s.calls, s.served, true, s.fault);
  }

  lemma DropLive(s: State, p: Ptr, serial: nat, clear: Acts)
    requires Live(s)
    ensures Onwards(s, Drop(s, p, serial, clear))
  {
    hide Inv, Delete, Keeps, Evolves;
    if Same(s, p, serial) {
      DeleteKeeps(s, p, clear);
      KeepsLive(s, Delete(s, p, clear));
    } else {
      NotedEvolves(s, s.calls, s.served, s.broken, true);
    }
  }

  lemma {:induction false} UserCallsLive(s: State, p: Ptr, serial: nat, r: Reaction)
    requires Live(s) && (s.broken || Same(s, p, serial))
    ensures var (t, ret) := UserCalls(s, p, serial, r);
      Onwards(s, t) && (ret == CONTINUE ==> t.broken || Same(t, p, serial))
    decreases r
  {
    hide Live, Same, Called, Judge, Onwards;
    var s1 := Called(s, p, serial, USER, r.acts);
    CalledLive(s, p, serial, USER, r.acts);
    OnwardsLive(s, s1);
    match r
    case Return(_, code, _) =>
      JudgeLive(s1, p, serial, code != CONTINUE);
      OnwardsTransitive(s, s1, Judge(s1, p, serial, code != CONTINUE));
    case Again(_, next) =>
      var s2 := Judge(s1, p, serial, false);
      JudgeLive(s1, p, serial, false);
      OnwardsLive(s1, s2);
      UserCallsLive(s2, p, serial, next);
      OnwardsTransitive(s, s1, s2);
      OnwardsTransitive(s, s2, UserCalls(s2, p, serial, next).0);
  }

  lemma EventCbLive(s: State, p: Ptr, serial: nat, reason: Reason, r: Reaction)
    requires Live(s) && (s.broken || Same(s, p, serial))
    ensures var (t, ret) := EventCb(s, p, serial, reason, r);
      Onwards(s, t) && (ret == CONTINUE ==> t.broken || Same(t, p, serial))
  {
    hide Live, Same, Called, Judge, Drop, UserCalls, Onwards;
    var s1 := Called(s, p, serial, reason, r.acts);
    CalledLive(s, p, serial, reason, r.acts);
    OnwardsLive(s, s1);
    match r
    case Return(_, code, clear) =>
      var leaves := code > DISCONNECT && code != CONTINUE && code != ACCEPT;
      var s2 := Judge(s1, p, serial, leaves);
      JudgeLive(s1, p, serial, leaves);
      OnwardsLive(s1, s2);
      OnwardsTransitive(s, s1, s2);
      if code <= DISCONNECT {
        DropLive(s2, p, serial, clear);
        OnwardsTransitive(s, s2, Drop(s2, p, serial, clear));
      }
    case Again(_, next) =>
      var s2 := Judge(s1, p, serial, false);
      JudgeLive(s1, p, serial, false);
      OnwardsLive(s1, s2);
      UserCallsLive(s2, p, serial, next);
      OnwardsTransitive(s, s1, s2);
      OnwardsTransitive(s, s2, UserCalls(s2, p, serial, next).0);
  }

  lemma TimerServiceLive(s: State, p: Ptr, serial: nat, ready: Ready, v: Serving)
    requires Live(s) && (s.broken || Same(s, p, serial))
    ensures Onwards(s, TimerService(s, p, serial, ready, v).0)
  {
    hide Same, EventCb, Drop, Live, Onwards;
    if ready.readable && v.timerRead {
      EventCbLive(s, p, serial, TIMEOUT, v.first);
    } else {
      EventCbLive(s, p, serial, ERROR, v.first);
      var s1 := EventCb(s, p, serial, ERROR, v.first).0;
      OnwardsLive(s, s1);
      DropLive(s1, p, serial, v.clear);
      OnwardsTransitive(s, s1, Drop(s1, p, serial, v.clear));
    }
  }

  // ----- one event of a batch -----

  lemma ReadyInv(s: State, p: Ptr, ready: Ready)
    requires Inv(s) && p in s.mem
    ensures var t := s.(mem := s.mem[p := s.mem[p].(events := ready)]);
      Inv(t) && Evolves(s, t) && forall q: Ptr, k: nat :: Same(t, q, k) == Same(s, q, k)
  {
    var t := s.(mem := s.mem[p := s.mem[p].(events := ready)]);
    forall q | q in s.mem ensures Registered(t, q) == Registered(s, q) {}
    assert forall q: Ptr, k: nat :: Same(t, q, k) == Same(s, q, k);
    assert Inv(t);
    hide Inv, Same;
    StillThere(s, t);
  }

  // The case in which the engine uses an event that is gone: a timer that could not be read, whose
  // ERROR callback gets rid of it.
  predicate TimerLost(turn: Turn) {
    turn.timer && !(turn.ready.readable && turn.v.timerRead) && GetsRid(turn.v.first, turn.ptr)
  }

  lemma ServiceCbSound(s: State, p: Ptr, ready: Ready, v: Serving)
    requires Live(s) && Registered(s, p)
    ensures var t := ServiceCb(s, p, ready, v).0;
      Onwards(s, t) && Evolves(s, t) && t.served == s.served &&
      (!t.broken ==> (t.fault <==> s.fault || TimerLost(Turn(p, IsTimer(s, p), ready, v))))
  {
    assert p in s.mem;
    var k := s.mem[p].serial;
    var s0 := s.(mem := s.mem[p := s.mem[p].(events := ready)]);
    ReadyInv(s, p, ready);
    assert Same(s, p, k) && Same(s0, p, k) && Onwards(s, s0);
    hide Same, EventCb, TimerService, Inv, Live, Onwards, Registered, Evolves, GetsRid;
    OnwardsLive(s, s0);
    LiveInv(s);
    LiveInv(s0);
    if s.mem[p].kind == Timer {
      TimerServiceLive(s0, p, k, ready, v);
      TimerServiceFate(s0, p, k, ready, v);
      var t := TimerService(s0, p, k, ready, v).0;
      OnwardsTransitive(s, s0, t);
      EvolvesTransitive(s, s0, t);
    } else if ready.rdhup || ready.hup || ready.err || ready.pri {
      var reason := if ready.rdhup then CLOSED else if ready.hup then HUNGED else if ready.err then ERROR else EXCEPTION;
      CalledOn(s, s0, p, k, reason, v.first);
    } else if ready.writable {
      CalledOn(s, s0, p, k, WRITE, v.first);
      var (s1, ret) := EventCb(s0, p, k, WRITE, v.first);
      if ret == CONTINUE && ready.readable { CalledOn(s, s1, p, k, READ, v.second); }
    } else if ready.readable {
      CalledOn(s, s0, p, k, READ, v.second);
    }
  }

  lemma LiveInv(s: State)
    requires Live(s)
    ensures Inv(s)
  {
  }

  // One callback of an event on the way from s, where it was served first.
  lemma CalledOn(s: State, s1: State, p: Ptr, k: nat, reason: Reason, r: Reaction)
    requires Live(s) && Onwards(s, s1) && Evolves(s, s1) && s1.served == s.served && (!s1.broken ==> s1.fault == s.fault)
    requires s1.broken || Same(s1, p, k)
    ensures var (t, ret) := EventCb(s1, p, k, reason, r);
      Onwards(s, t) && Evolves(s, t) && t.served == s.served && (!t.broken ==> t.fault == s.fault) &&
      (ret == CONTINUE ==> t.broken || Same(t, p, k))
  {
    hide Same, EventCb, Inv, Live, Onwards, Evolves, GetsRid;
    OnwardsLive(s, s1);
    LiveInv(s);
    LiveInv(s1);
    EventCbLive(s1, p, k, reason, r);
    EventCbFate(s1, p, k, reason, r);
    var t := EventCb(s1, p, k, reason, r).0;
    OnwardsTransitive(s, s1, t);
    EvolvesTransitive(s, s1, t);
  }

  // ======================= what a batch does =======================

  // As long as the rules are kept: every callback so far was made on an event that was there, and
  // the engine has used an event that was gone exactly when one of the timers served was lost.
  ghost predicate Sound(s: State) {
    && Inv(s)
    && (!s.broken ==> (s.fault <==> Lost(s.served)) && forall i | 0 <= i < |s.calls| :: s.calls[i].live)
  }

  ghost predicate Lost(served: seq<Turn>) { exists i | 0 <= i < |served| :: TimerLost(served[i]) }

  lemma LostNext(served: seq<Turn>, turn: Turn)
    ensures Lost(served + [turn]) <==> Lost(served) || TimerLost(turn)
  {
    hide TimerLost;
    if Lost(served) {
      var i :| 0 <= i < |served| && TimerLost(served[i]);
      assert TimerLost((served + [turn])[i]);
    }
    if TimerLost(turn) { assert TimerLost((served + [turn])[|served|]); }
    if Lost(served + [turn]) {
      var i :| 0 <= i < |served + [turn]| && TimerLost((served + [turn])[i]);
      if i < |served| { assert TimerLost(served[i]); }
    }
  }

  lemma ServeSound(s: State, p: Ptr, ready: Ready, v: Serving)
    requires Sound(s) && Registered(s, p)
    ensures var t := Serve(s, p, ready, v).0;
      Sound(t) && Evolves(s, t) && t.wait == s.wait && |t.batch| == |s.batch|
  {
    hide ServiceCb, Registered, Evolves, Same, TimerLost, Inv;
    ServiceCbSound(s, p, ready, v);
    var t := ServiceCb(s, p, ready, v).0;
    var turn := Turn(p, IsTimer(s, p), ready, v);
    LostNext(s.served, turn);
    NotedEvolves(t, t.calls, t.served + [turn], t.broken, t.fault);
    EvolvesTransitive(s, t, t.(served := t.served + [turn]));
  }

  lemma {:induction false} LoopSound(s: State, n: nat, i: nat, v: nat -> Serving)
    requires Sound(s) && n == s.wait
    ensures var t := Loop(s, n, i, v).0;
      Sound(t) && t.wait == s.wait && |t.batch| == |s.batch|
    decreases if i < n then n - i else 0
  {
    hide Serve, Registered, Evolves;
    if i < n && i < |s.batch| {
      if s.batch[i].ptr == None {
        LoopSound(s, n, i + 1, v);
      } else {
        var (s1, ret) := Serve(s, s.batch[i].ptr.value, s.batch[i].ready, v(i));
        assert Registered(s, s.batch[i].ptr.value);
        ServeSound(s, s.batch[i].ptr.value, s.batch[i].ready, v(i));
        if ret == CONTINUE { LoopSound(s1, n, i + 1, v); }
      }
    }
  }

  // A loop that never looks at the batch again: each event the kernel delivered, in order, is
  // served if it is still there, that is the same registration, until a callback answers other
  // than CONTINUE.
  function PlainLoop(s0: State, s: State, i: nat, v: nat -> Serving): (State, int)
    decreases if i < s0.wait then s0.wait - i else 0
  {
    if i >= s0.wait || i >= |s0.batch| then (s, CONTINUE)
    else
      var slot := s0.batch[i];
      if slot.ptr == None || slot.ptr.value !in s0.mem || !Same(s, slot.ptr.value, s0.mem[slot.ptr.value].serial)
      then PlainLoop(s0, s, i + 1, v)
      else
        var (s1, ret) := Serve(s, slot.ptr.value, slot.ready, v(i));
        if ret != CONTINUE then (s1, ret) else PlainLoop(s0, s1, i + 1, v)
  }

  lemma {:induction false} LoopIsPlain(s0: State, s: State, i: nat, v: nat -> Serving)
    requires Inv(s0) && Sound(s) && Evolves(s0, s)
    ensures Loop(s, s0.wait, i, v) == PlainLoop(s0, s, i, v)
    decreases if i < s0.wait then s0.wait - i else 0
  {
    hide Serve, Same, Registered, Inv;
    InvWait(s0);
    if i < s0.wait && i < |s0.batch| {
      assert Follows(s0, s, s0.batch[i], s.batch[i]);
      if s0.batch[i].ptr.Some? { SlotRegistered(s0, i); }
      if s.batch[i].ptr == None {
        LoopIsPlain(s0, s, i + 1, v);
      } else {
        SameIs(s, s.batch[i].ptr.value, s0.mem[s.batch[i].ptr.value].serial);
        ServeSound(s, s.batch[i].ptr.value, s.batch[i].ready, v(i));
        var (s1, ret) := Serve(s, s.batch[i].ptr.value, s.batch[i].ready, v(i));
        EvolvesTransitive(s0, s, s1);
        if ret == CONTINUE { LoopIsPlain(s0, s1, i + 1, v); }
      }
    }
  }

  lemma SelfEvolves(s: State)
    requires Inv(s)
    ensures Evolves(s, s)
  {
    NotedEvolves(s, s.calls, s.served, s.broken, s.fault);
  }

  // So a batch serves exactly the events delivered that are still there at their turn, in order,
  // until it is stopped.
  lemma ServesTheLiving(s: State, slots: seq<Slot>, v: nat -> Serving)
    requires Sound(s) && Deliverable(s, slots)
    ensures var s0 := s.(batch := slots + s.batch[|slots|..], wait := |slots|);
      var (t, ret) := PlainLoop(s0, s0, 0, v);
      Service(s, slots, v) == (t.(wait := 0), ret == BREAK)
  {
    hide Loop, PlainLoop, Evolves;
    var s0 := s.(batch := slots + s.batch[|slots|..], wait := |slots|);
    DeliveredInv(s, slots);
    SelfEvolves(s0);
    LoopIsPlain(s0, s0, 0, v);
  }

  ghost predicate Known(s: State, p: Ptr) { exists fd | fd in s.kernel :: s.kernel[fd] == p }

  // What epoll_wait can deliver: events registered with the kernel, no more than there is room for.
  ghost predicate Deliverable(s: State, slots: seq<Slot>) {
    && |slots| <= |s.batch|
    && forall i | 0 <= i < |slots| :: slots[i].ptr.Some? && Known(s, slots[i].ptr.value)
  }

  lemma ServiceSound(s: State, slots: seq<Slot>, v: nat -> Serving)
    requires Sound(s) && Deliverable(s, slots)
    ensures Sound(Service(s, slots, v).0) && Service(s, slots, v).0.wait == 0
    ensures |Service(s, slots, v).0.batch| == |s.batch|
  {
    hide Loop;
    var s0 := s.(batch := slots + s.batch[|slots|..], wait := |slots|);
    DeliveredInv(s, slots);
    LoopSound(s0, |slots|, 0, v);
    WaitOverInv(Loop(s0, |slots|, 0, v).0);
  }

  lemma DeliveredInv(s: State, slots: seq<Slot>)
    requires Inv(s) && Deliverable(s, slots)
    ensures Inv(s.(batch := slots + s.batch[|slots|..], wait := |slots|))
  {
    var t := s.(batch := slots + s.batch[|slots|..], wait := |slots|);
    forall i | 0 <= i < |slots| ensures Registered(t, slots[i].ptr.value) {
      assert Known(s, slots[i].ptr.value);
      var fd :| fd in s.kernel && s.kernel[fd] == slots[i].ptr.value;
    }
    assert forall i | 0 <= i < |slots| :: t.batch[i] == slots[i];
  }

  lemma WaitOverInv(s: State)
    requires Inv(s)
    ensures Inv(s.(wait := 0))
  {
  }

  // ----- whole runs -----

  // Between batches the user may use the engine freely; then a batch is served.
  datatype Round = Outside(acts: Acts) | Served(slots: seq<Slot>, v: nat -> Serving)

  ghost function Run(s: State, rounds: seq<Round>): State
    decreases |rounds|
  {
    if rounds == [] then s
    else
      var s1 := match rounds[0]
        case Outside(acts) => Perform(s, acts)
        case Served(slots, v) => if Deliverable(s, slots) then Service(s, slots, v).0 else s;
      Run(s1, rounds[1..])
  }

  ghost predicate Fresh(s: State) {
    && s.mem == map[] && s.kernel == map[] && s.index == map[] && s.wait == 0 && s.count == 0
    && s.calls == [] && s.served == [] && !s.broken && !s.fault
  }

  // Over every run of the engine.
  lemma {:induction false} RunSound(s: State, rounds: seq<Round>)
    requires Sound(s)
    ensures Sound(Run(s, rounds))
    decreases |rounds|
  {
    hide Inv, Perform, Service, Keeps, Sound;
    if rounds != [] {
      match rounds[0]
      case Outside(acts) =>
        ActsSound(s, acts);
        RunSound(Perform(s, acts), rounds[1..]);
      case Served(slots, v) =>
        if Deliverable(s, slots) {
          ServiceSound(s, slots, v);
          RunSound(Service(s, slots, v).0, rounds[1..]);
        } else {
          RunSound(s, rounds[1..]);
        }
    }
  }

  lemma ActsSound(s: State, acts: Acts)
    requires Sound(s)
    ensures Sound(Perform(s, acts))
  {
    hide Inv, Perform, Registered, Lost;
    PerformKeeps(s, acts);
    KeepsLive(s, Perform(s, acts));
  }

  // From a new engine: unless a callback breaks the rules, no callback is ever made on an event that
  // is gone, however many events other callbacks have deleted; and the engine uses an event that is
  // gone exactly when it served a timer it could not read whose ERROR callback got rid of it, which
  // no rule forbids.
  lemma RunFromFresh(s: State, rounds: seq<Round>)
    requires Fresh(s)
    ensures var t := Run(s, rounds);
      !t.broken ==>
        (t.fault <==> exists i | 0 <= i < |t.served| :: TimerLost(t.served[i])) &&
        forall i | 0 <= i < |t.calls| :: t.calls[i].live
  {
    hide Run;
    RunSound(s, rounds);
  }

  // Such a run exists: a new engine, a timer registered, and a batch in which it cannot be read and
  // its callback answers DISCONNECT. XEvents_EventCb deletes the timer, and XEvents_TimerService
  // then deletes it again.
  lemma TimerErrorDisconnect(s: State, p: Ptr, ready: Ready, v: Serving)
    requires Fresh(s) && |s.batch| > 0 && !ready.readable && v.first == Return(Nil, DISCONNECT, Nil)
    ensures var t := Run(s, [Outside(Cons(Register(p, 5, Timer, ready, true, true), Nil)), Served([Slot(Some(p), ready)], _ => v)]);
      !t.broken && t.fault
  {
    hide Service, Deliverable, RidsAny;
    var rounds := [Outside(Cons(Register(p, 5, Timer, ready, true, true), Nil)), Served([Slot(Some(p), ready)], _ => v)];
    var s1 := TimerAdded(s, p, ready);
    TimerBatch(s1, p, ready, v);
    var t := Service(s1, [Slot(Some(p), ready)], _ => v).0;
    assert rounds[1..][1..] == [];
    assert Run(s, rounds) == Run(s1, rounds[1..]);
    assert Run(s1, rounds[1..]) == Run(t, rounds[1..][1..]);
  }

  lemma TimerAdded(s: State, p: Ptr, ready: Ready) returns (t: State)
    requires Fresh(s)
    ensures t == Perform(s, Cons(Register(p, 5, Timer, ready, true, true), Nil))
    ensures Sound(t) && !t.broken && |t.batch| == |s.batch| && p in t.mem && t.mem[p].kind == Timer && t.kernel == map[5 := p]
  {
    var acts := Cons(Register(p, 5, Timer, ready, true, true), Nil);
    t := Add(s, p, 5, Timer, ready, true, true);
    assert Perform(t, Nil) == t;
    ActsSound(s, acts);
  }

  lemma TimerBatch(s: State, p: Ptr, ready: Ready, v: Serving)
    requires Sound(s) && !s.broken && |s.batch| > 0 && p in s.mem && s.mem[p].kind == Timer && s.kernel == map[5 := p]
    requires !ready.readable && v.first == Return(Nil, DISCONNECT, Nil)
    ensures var slots := [Slot(Some(p), ready)];
      Deliverable(s, slots) && var t := Service(s, slots, _ => v).0; !t.broken && t.fault
  {
    var slots := [Slot(Some(p), ready)];
    assert s.kernel[5] == p && Known(s, p);
    ServiceSound(s, slots, _ => v);
    DeliveredInv(s, slots);
    var s0 := s.(batch := slots + s.batch[|slots|..], wait := |slots|);
    var k := s.mem[p].serial;
    var s1 := s0.(mem := s0.mem[p := s0.mem[p].(events := ready)]);
    ReadyInv(s0, p, ready);
    assert s.mem[p].fd == 5 && Same(s0, p, k);
    hide Inv, TimerService, Same;
    assert s0.batch[0] == slots[0];
    TimerErrorStep(s1, p, k, ready, v);
    TimerServiceFate(s1, p, k, ready, v);
    assert Serve(s0, p, ready, v).1 == RELOOP by { TimerReloops(s1, p, k, ready, v); }
  }

  lemma TimerReloops(s: State, p: Ptr, k: nat, ready: Ready, v: Serving)
    requires !ready.readable
    ensures TimerService(s, p, k, ready, v).1 == RELOOP
  {
    hide EventCb, Drop;
  }

  lemma TimerErrorStep(s: State, p: Ptr, k: nat, ready: Ready, v: Serving)
    requires Inv(s) && Same(s, p, k) && !s.broken && !ready.readable && v.first == Return(Nil, DISCONNECT, Nil)
    ensures !TimerService(s, p, k, ready, v).0.broken
  {
    hide Inv, Delete;
    var s1 := Called(s, p, k, ERROR, Nil);
    assert s1 == s.(calls := s.calls + [Call(p, ERROR, true)]);
    NotedEvolves(s, s1.calls, s1.served, s1.broken, s1.fault);
    assert Same(s1, p, k);
    DeleteKeeps(s1, p, Nil);
    DeleteIsBroken(s1, p);
    DeleteGone(s1, p, Nil, k);
  }

  lemma DeleteIsBroken(s: State, p: Ptr)
    requires p in s.mem
    ensures Delete(s, p, Nil).broken == s.broken
  {
    hide Forget, Found;
    assert Unregister(s, p).broken == s.broken;
    hide Unregister;
    var t := Closed(Unregister(s, p), Found(s, p));
    assert t.broken == s.broken;
    hide Closed;
  }
}
