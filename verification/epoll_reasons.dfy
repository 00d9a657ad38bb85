/**
 The reasons that the callbacks of the epoll engine are given, from the flags that the kernel
 reported and nothing else, over every run.
 */
module EpollReasons {
  import opened Options
  import opened EpollModel
  import opened EpollFates
  import opened EpollTheorems

  // The event and the reason of a call.
  type Told = (Ptr, Reason)

  // The calls that are neither for USER, which callbacks ask for, nor for CLEAR, which deletions make.
  function Own(calls: seq<Call>): seq<Told> {
    if calls == [] then []
    else
      var c := calls[|calls| - 1];
      Own(calls[..|calls| - 1]) + if c.reason == USER || c.reason == CLEAR then [] else [(c.ptr, c.reason)]
  }

  // What a callback answers in the end.
  function Answer(r: Reaction): int {
    match r
    case Return(_, code, _) => code
    case Again(_, next) => Answer(next)
  }

  // What the engine makes of it: a first answer below 0 deletes the event, one of 2 counts as 0.
  function Verdict(r: Reaction): int {
    match r
    case Return(_, code, _) => if code == 2 then 0 else if code < 0 then -1 else code
    case Again(_, next) => Answer(next)
  }

  predicate GoesOn(r: Reaction) { Verdict(r) == 0 }

  // What a turn comes to: a batch ends with the first turn for which this is not 0.
  function Outcome(turn: Turn): int {
    var f, v := turn.ready, turn.v;
    if turn.timer then (if f.readable && v.timerRead then Verdict(v.first) else 1)
    else if f.rdhup || f.hup || f.err || f.pri then Verdict(v.first)
    else if f.writable && !GoesOn(v.first) then Verdict(v.first)
    else if f.readable then Verdict(v.second)
    else 0
  }

  // The calls that a turn is worth.
  function Owed(turn: Turn): seq<Told> {
    var p, f := turn.ptr, turn.ready;
    if turn.timer then [(p, if f.readable && turn.v.timerRead then TIMEOUT else ERROR)]
    else if f.rdhup then [(p, CLOSED)]
    else if f.hup then [(p, HUNGED)]
    else if f.err then [(p, ERROR)]
    else if f.pri then [(p, EXCEPTION)]
    else
      (if f.writable then [(p, WRITE)] else []) +
      (if f.readable && (f.writable ==> GoesOn(turn.v.first)) then [(p, READ)] else [])
  }

  function AllOwed(turns: seq<Turn>): seq<Told> {
    if turns == [] then [] else AllOwed(turns[..|turns| - 1]) + Owed(turns[|turns| - 1])
  }

  lemma OwnNext(calls: seq<Call>, c: Call)
    ensures Own(calls + [c]) == Own(calls) + if c.reason == USER || c.reason == CLEAR then [] else [(c.ptr, c.reason)]
  {
    assert (calls + [c])[..|calls|] == calls;
  }

  // ----- what the user does makes no calls of these -----

  lemma {:induction false} DoQuiet(s: State, a: Act)
    ensures Own(Do(s, a).calls) == Own(s.calls)
    decreases a, 3
  {
    hide Own, Delete;
    match a
    case Remove(p, clear) => if Registered(s, p) { DeleteQuiet(s, p, clear); }
    case _ =>
  }

  lemma {:induction false} DeleteQuiet(s: State, p: Ptr, clear: Acts)
    requires p in s.mem
    ensures Own(Delete(s, p, clear).calls) == Own(s.calls)
    decreases clear, 2
  {
    hide Own, Perform, Found;
    var q := Found(s, p);
    var s1 := Closed(Unregister(s, p), q);
    assert s1.calls == s.calls;
    OwnNext(s.calls, Call(q, CLEAR, q in s1.mem));
    PerformQuiet(s1.(calls := s1.calls + [Call(q, CLEAR, q in s1.mem)]), clear);
  }

  lemma {:induction false} PerformQuiet(s: State, acts: Acts)
    ensures Own(Perform(s, acts).calls) == Own(s.calls)
    decreases acts, 0
  {
    hide Own, Do;
    match acts
    case Nil =>
    case Cons(a, rest) =>
      DoQuiet(s, a);
      PerformQuiet(Do(s, a), rest);
  }

  // ----- one callback -----

  lemma CalledTells(s: State, p: Ptr, serial: nat, reason: Reason, acts: Acts)
    ensures Own(Called(s, p, serial, reason, acts).calls) ==
            Own(s.calls) + if reason == USER || reason == CLEAR then [] else [(p, reason)]
  {
    hide Own, Perform, Same;
    var c := Call(p, reason, Same(s, p, serial));
    OwnNext(s.calls, c);
    PerformQuiet(s.(calls := s.calls + [c], fault := s.fault || !Same(s, p, serial)), acts);
  }

  lemma {:induction false} UserCallsTell(s: State, p: Ptr, serial: nat, r: Reaction)
    ensures var (t, ret) := UserCalls(s, p, serial, r); Own(t.calls) == Own(s.calls) && ret == Answer(r)
    decreases r
  {
    hide Own, Called, Same;
    CalledTells(s, p, serial, USER, r.acts);
    match r
    case Return(_, _, _) =>
    case Again(_, next) => UserCallsTell(Judge(Called(s, p, serial, USER, r.acts), p, serial, false), p, serial, next);
  }

  lemma EventCbTells(s: State, p: Ptr, serial: nat, reason: Reason, r: Reaction)
    requires reason != USER && reason != CLEAR
    ensures var (t, ret) := EventCb(s, p, serial, reason, r);
      Own(t.calls) == Own(s.calls) + [(p, reason)] && ret == Verdict(r)
  {
    hide Own, Called, Same, Delete, UserCalls;
    CalledTells(s, p, serial, reason, r.acts);
    var s1 := Called(s, p, serial, reason, r.acts);
    match r
    case Return(_, code, clear) =>
      if code <= DISCONNECT { DropQuiet(Judge(s1, p, serial, false), p, serial, clear); }
    case Again(_, next) => UserCallsTell(Judge(s1, p, serial, false), p, serial, next);
  }

  lemma DropQuiet(s: State, p: Ptr, serial: nat, clear: Acts)
    ensures Own(Drop(s, p, serial, clear).calls) == Own(s.calls)
  {
    hide Own, Delete;
    if Same(s, p, serial) { DeleteQuiet(s, p, clear); }
  }

  // ----- one turn -----

  // A turn makes the calls that its flags are worth, in order, and besides these only calls for USER
  // and for CLEAR.
  lemma ServiceCbTells(s: State, p: Ptr, ready: Ready, v: Serving)
    requires p in s.mem
    ensures var turn, (t, ret) := Turn(p, IsTimer(s, p), ready, v), ServiceCb(s, p, ready, v);
      Own(t.calls) == Own(s.calls) + Owed(turn) && ret == Outcome(turn)
  {
    hide Own, EventCb, Drop, Verdict;
    var k := s.mem[p].serial;
    var s0 := s.(mem := s.mem[p := s.mem[p].(events := ready)]);
    if s.mem[p].kind == Timer {
      var reason := if ready.readable && v.timerRead then TIMEOUT else ERROR;
      EventCbTells(s0, p, k, reason, v.first);
      DropQuiet(EventCb(s0, p, k, reason, v.first).0, p, k, v.clear);
    } else if ready.rdhup || ready.hup || ready.err || ready.pri {
      EventCbTells(s0, p, k, if ready.rdhup then CLOSED else if ready.hup then HUNGED else if ready.err then ERROR else EXCEPTION, v.first);
    } else {
      if ready.writable { EventCbTells(s0, p, k, WRITE, v.first); }
      if ready.readable {
        var s1 := if ready.writable then EventCb(s0, p, k, WRITE, v.first).0 else s0;
        EventCbTells(s1, p, k, READ, v.second);
      }
    }
  }

  // By the flags: which reasons are among them, READ being told last.
  lemma OwedByFlags(turn: Turn)
    ensures var p, f, owed := turn.ptr, turn.ready, Owed(turn);
      var alarm := f.rdhup || f.hup || f.err || f.pri;
      && ((p, TIMEOUT) in owed <==> turn.timer && f.readable && turn.v.timerRead)
      && ((p, CLOSED) in owed <==> !turn.timer && f.rdhup)
      && ((p, HUNGED) in owed <==> !turn.timer && f.hup && !f.rdhup)
      && ((p, ERROR) in owed <==> if turn.timer then !(f.readable && turn.v.timerRead) else f.err && !f.rdhup && !f.hup)
      && ((p, EXCEPTION) in owed <==> !turn.timer && f.pri && !f.rdhup && !f.hup && !f.err)
      && ((p, WRITE) in owed <==> !turn.timer && !alarm && f.writable)
      && ((p, READ) in owed <==> !turn.timer && !alarm && f.readable && (f.writable ==> GoesOn(turn.v.first)))
      && (turn.timer || alarm ==> |owed| == 1)
      && ((p, WRITE) in owed && (p, READ) in owed ==> owed == [(p, WRITE), (p, READ)])
      && (forall c | c in owed :: c.0 == p)
  {
    hide Verdict;
  }

  // ----- batches and runs -----

  lemma {:induction false} AllOwedAppend(a: seq<Turn>, b: seq<Turn>)
    ensures AllOwed(a + b) == AllOwed(a) + AllOwed(b)
    decreases |b|
  {
    hide Owed;
    if b == [] {
      assert a + b == a;
    } else {
      AllOwedAppend(a, b[..|b| - 1]);
      assert (a + b)[..|a + b| - 1] == a + b[..|b| - 1];
    }
  }

  // The turns served from s to t, and the calls made, are each other's.
  ghost predicate Tells(s: State, t: State) {
    s.served <= t.served && Own(t.calls) == Own(s.calls) + AllOwed(t.served[|s.served|..])
  }

  lemma TellsNothing(s: State, t: State)
    requires t.served == s.served && Own(t.calls) == Own(s.calls)
    ensures Tells(s, t)
  {
    hide Own;
  }

  lemma TellsTransitive(s: State, t: State, u: State)
    requires Tells(s, t) && Tells(t, u)
    ensures Tells(s, u)
  {
    hide Own, AllOwed;
    assert u.served[|s.served|..] == t.served[|s.served|..] + u.served[|t.served|..];
    AllOwedAppend(t.served[|s.served|..], u.served[|t.served|..]);
  }

  lemma ServeTells(s: State, p: Ptr, ready: Ready, v: Serving)
    requires Sound(s) && Registered(s, p)
    ensures var turn, (t, ret) := Turn(p, IsTimer(s, p), ready, v), Serve(s, p, ready, v);
      Tells(s, t) && t.served == s.served + [turn] && ret == Outcome(turn)
  {
    hide Own, Owed, Outcome, ServiceCb, Evolves, Onwards, Inv, TimerLost;
    ServiceCbSound(s, p, ready, v);
    ServiceCbTells(s, p, ready, v);
    var turn := Turn(p, IsTimer(s, p), ready, v);
    assert (s.served + [turn])[|s.served|..] == [turn];
    AllOwedOne(turn);
  }

  lemma AllOwedOne(turn: Turn)
    ensures AllOwed([turn]) == Owed(turn)
  {
    hide Owed;
    assert [turn][..0] == [];
  }

  // All turns but the last one came to 0, and `ret` is what the last one came to.
  ghost predicate Ends(s: State, t: State, ret: int) {
    s.served <= t.served &&
    var turns := t.served[|s.served|..];
    ret == (if turns == [] then 0 else Outcome(turns[|turns| - 1])) &&
    forall k | 0 <= k < |turns| - 1 :: Outcome(turns[k]) == 0
  }

  lemma EndsLater(s: State, s1: State, t: State, ret: int, turn: Turn)
    requires s1.served == s.served + [turn] && Outcome(turn) == 0 && Ends(s1, t, ret)
    ensures Ends(s, t, ret)
  {
    hide Outcome;
    var turns, rest := t.served[|s.served|..], t.served[|s1.served|..];
    assert turns == [turn] + rest;
  }

  lemma EndsHere(s: State, t: State, turn: Turn)
    requires t.served == s.served + [turn]
    ensures Ends(s, t, Outcome(turn))
  {
    hide Outcome;
    assert t.served[|s.served|..] == [turn];
  }

  lemma EndsAtOnce(s: State)
    ensures Ends(s, s, 0)
  {
    hide Outcome;
  }

  lemma {:induction false} LoopTells(s: State, n: nat, i: nat, v: nat -> Serving)
    requires Sound(s) && n == s.wait
    ensures var (t, ret) := Loop(s, n, i, v); Tells(s, t) && Ends(s, t, ret)
    decreases if i < n then n - i else 0
  {
    hide Serve, Registered, Evolves, Own, AllOwed, Tells, Ends, Outcome;
    if i < n && i < |s.batch| {
      if s.batch[i].ptr == None {
        LoopTells(s, n, i + 1, v);
      } else {
        var (s1, ret) := Serve(s, s.batch[i].ptr.value, s.batch[i].ready, v(i));
        assert Registered(s, s.batch[i].ptr.value);
        ServeSound(s, s.batch[i].ptr.value, s.batch[i].ready, v(i));
        ServeTells(s, s.batch[i].ptr.value, s.batch[i].ready, v(i));
        var turn := Turn(s.batch[i].ptr.value, IsTimer(s, s.batch[i].ptr.value), s.batch[i].ready, v(i));
        if ret == CONTINUE {
          var (t, last) := Loop(s1, n, i + 1, v);
          LoopTells(s1, n, i + 1, v);
          TellsTransitive(s, s1, t);
          EndsLater(s, s1, t, last, turn);
        } else {
          EndsHere(s, s1, turn);
        }
      }
    } else {
      TellsNothing(s, s);
      EndsAtOnce(s);
    }
  }

  // A batch makes the calls that its turns are worth, ends with the first turn that comes to other than
  // 0, and asks to stop when that is 4.
  lemma ServiceTells(s: State, slots: seq<Slot>, v: nat -> Serving)
    requires Sound(s) && Deliverable(s, slots)
    ensures var (t, stop) := Service(s, slots, v);
      Tells(s, t) && exists ret :: Ends(s, t, ret) && (stop <==> ret == 4)
  {
    hide Loop, Own, AllOwed, Outcome;
    var s0 := s.(batch := slots + s.batch[|slots|..], wait := |slots|);
    DeliveredInv(s, slots);
    LoopTells(s0, |slots|, 0, v);
    var ret := Loop(s0, |slots|, 0, v).1;
    assert Ends(s, Service(s, slots, v).0, ret);
  }

  lemma {:induction false} RunTells(s: State, rounds: seq<Round>)
    requires Sound(s)
    ensures Tells(s, Run(s, rounds))
    decreases |rounds|
  {
    hide Inv, Perform, Service, Keeps, Sound, Own, AllOwed, Tells;
    if rounds == [] {
      TellsNothing(s, s);
    } else {
      match rounds[0]
      case Outside(acts) =>
        var s1 := Perform(s, acts);
        ActsSound(s, acts);
        ActsServeNothing(s, acts);
        PerformQuiet(s, acts);
        TellsNothing(s, s1);
        RunTells(s1, rounds[1..]);
        TellsTransitive(s, s1, Run(s1, rounds[1..]));
      case Served(slots, v) =>
        if Deliverable(s, slots) {
          var s1 := Service(s, slots, v).0;
          ServiceSound(s, slots, v);
          ServiceTells(s, slots, v);
          RunTells(s1, rounds[1..]);
          TellsTransitive(s, s1, Run(s1, rounds[1..]));
        } else {
          RunTells(s, rounds[1..]);
        }
    }
  }

  lemma ActsServeNothing(s: State, acts: Acts)
    requires Sound(s)
    ensures Perform(s, acts).served == s.served
  {
    hide Inv, Perform, Registered, Lost;
    PerformKeeps(s, acts);
  }

  // From a new engine: the callbacks made, other than those for USER and CLEAR, are those that the
  // turns served are worth, one after the other.
  lemma RunTellsFromFresh(s: State, rounds: seq<Round>)
    requires Fresh(s)
    ensures Own(Run(s, rounds).calls) == AllOwed(Run(s, rounds).served)
  {
    hide Run, AllOwed;
    RunTells(s, rounds);
    var t := Run(s, rounds);
    assert t.served[0..] == t.served;
  }
}
