/**
 The reasons that the callbacks of the poll engine are given, from the bits that poll reported.
 */
module PollReasons {
  import opened Options
  import opened PollModel
  import opened PollService

  // The event, the descriptor and the reason of a call.
  type Told = (Option<Ptr>, int, Reason)

  function One(c: Call): seq<Told> { if c.reason == USER then [] else [(c.ptr, c.fd, c.reason)] }

  // The calls that are not for USER, which callbacks ask for.
  function Own(calls: seq<Call>): seq<Told> {
    if calls == [] then [] else One(calls[0]) + Own(calls[1..])
  }

  // What a callback answers in the end.
  function Answer(r: Reaction): int {
    match r
    case Return(_, code, _) => code
    case Again(_, next) => Answer(next)
  }

  // What the engine makes of it: a first answer below 0 deletes the event, one of 2 ends the call.
  function Verdict(r: Reaction): int {
    match r
    case Return(_, code, _) => if code == 2 then 1 else if code < 0 then -1 else code
    case Again(_, next) => Answer(next)
  }

  predicate Alarm(n: int) { n / 0x2000 % 2 == 1 || n / 16 % 2 == 1 || n / 8 % 2 == 1 || n / 2 % 2 == 1 }

  // What a turn comes to: the call ends with the first turn for which this is not 0.
  function Outcome(turn: Turn, v: Serving): int {
    var n := turn.revents;
    if Alarm(n) then (if Verdict(v.first) == 0 then 1 else Verdict(v.first))
    else if n / 4 % 2 == 1 && Verdict(v.first) != 0 then Verdict(v.first)
    else if n % 2 == 1 then Verdict(v.second)
    else 0
  }

  // The calls that a turn is worth, by the bits of poll.h.
  function Owed(turn: Turn, v: Serving): seq<Told> {
    var p, fd, n := turn.ptr, turn.fd, turn.revents;
    if n / 0x2000 % 2 == 1 then [(p, fd, CLOSED)]
    else if n / 16 % 2 == 1 then [(p, fd, HUNGED)]
    else if n / 8 % 2 == 1 then [(p, fd, ERROR)]
    else if n / 2 % 2 == 1 then [(p, fd, EXCEPTION)]
    else
      (if n / 4 % 2 == 1 then [(p, fd, WRITE)] else []) +
      (if n % 2 == 1 && (n / 4 % 2 == 1 ==> Verdict(v.first) == 0) then [(p, fd, READ)] else [])
  }

  function AllOwed(turns: seq<Turn>, v: nat -> Serving): seq<Told> {
    if turns == [] then [] else Owed(turns[0], v(turns[0].place)) + AllOwed(turns[1..], v)
  }

  lemma OwnOne(c: Call, calls: seq<Call>)
    ensures Own([c] + calls) == One(c) + Own(calls)
  {
    hide One;
    assert ([c] + calls)[1..] == calls;
  }

  lemma OwnNone()
    ensures Own([]) == []
  {
  }

  lemma {:induction false} OwnAppend(a: seq<Call>, b: seq<Call>)
    ensures Own(a + b) == Own(a) + Own(b)
    decreases |a|
  {
    hide One;
    if a == [] {
      assert a + b == b;
    } else {
      OwnAppend(a[1..], b);
      OwnOne(a[0], a[1..] + b);
      OwnOne(a[0], a[1..]);
      assert a == [a[0]] + a[1..] && a + b == [a[0]] + (a[1..] + b);
    }
  }

  // ----- one callback -----

  lemma {:induction false} UserCallsTell(s: State, q: Option<Ptr>, fd: int, r: Reaction)
    requires Fits(s)
    ensures var y := UserCalls(s, q, fd, r); Own(y.calls) == [] && y.ret == Answer(r)
    decreases r
  {
    hide Own, Perform;
    var call := Made(s, q, fd, USER);
    OwnNone();
    match r
    case Return(_, _, _) =>
      OwnOne(call, []);
      assert [call] + [] == [call];
    case Again(_, next) =>
      var s1 := Perform(s, r.acts);
      UserCallsTell(s1, q, fd, next);
      OwnOne(call, UserCalls(s1, q, fd, next).calls);
  }

  lemma EventCbTells(s: State, q: Option<Ptr>, fd: int, reason: Reason, r: Reaction)
    requires Fits(s) && reason != USER
    ensures var y := EventCb(s, q, fd, reason, r); Own(y.calls) == [(q, fd, reason)] && y.ret == Verdict(r)
  {
    hide Own, Perform, Delete, UserCalls;
    var call := Made(s, q, fd, reason);
    OwnNone();
    match r
    case Return(_, _, _) =>
      OwnOne(call, []);
      assert [call] + [] == [call];
    case Again(_, next) =>
      var s1 := Perform(s, r.acts);
      UserCallsTell(s1, q, fd, next);
      OwnOne(call, UserCalls(s1, q, fd, next).calls);
  }

  // ----- one turn -----

  // A turn makes the calls that its bits are worth, in order, and besides these only calls for USER.
  lemma ServiceCbTells(s: State, turn: Turn, v: Serving)
    requires Fits(s)
    ensures var y := ServiceCb(s, turn.ptr, turn.fd, turn.revents, v); Own(y.calls) == Owed(turn, v) && y.ret == Outcome(turn, v)
  {
    hide Own, EventCb, Seen, Verdict;
    var q, fd, n := turn.ptr, turn.fd, turn.revents;
    var s0 := Seen(s, q, n);
    OwnNone();
    if n / 0x2000 % 2 == 1 {
      EventCbTells(s0, q, fd, CLOSED, v.first);
    } else if n / 16 % 2 == 1 {
      EventCbTells(s0, q, fd, HUNGED, v.first);
    } else if n / 8 % 2 == 1 {
      EventCbTells(s0, q, fd, ERROR, v.first);
    } else if n / 2 % 2 == 1 {
      EventCbTells(s0, q, fd, EXCEPTION, v.first);
    } else {
      var w := if n / 4 % 2 == 1 then EventCb(s0, q, fd, WRITE, v.first) else Reply(s0, CONTINUE, []);
      if n / 4 % 2 == 1 { EventCbTells(s0, q, fd, WRITE, v.first); }
      if n % 2 == 1 && w.ret == CONTINUE {
        EventCbTells(w.state, q, fd, READ, v.second);
        OwnAppend(w.calls, EventCb(w.state, q, fd, READ, v.second).calls);
      }
    }
  }

  // Which reasons are among them, bit by bit.
  lemma OwedByBits(turn: Turn, v: Serving)
    ensures var n, owed := turn.revents, Owed(turn, v);
      var closed, hung, bad, pri := n / 0x2000 % 2 == 1, n / 16 % 2 == 1, n / 8 % 2 == 1, n / 2 % 2 == 1;
      var alarm := closed || hung || bad || pri;
      && ((turn.ptr, turn.fd, CLOSED) in owed <==> closed)
      && ((turn.ptr, turn.fd, HUNGED) in owed <==> hung && !closed)
      && ((turn.ptr, turn.fd, ERROR) in owed <==> bad && !closed && !hung)
      && ((turn.ptr, turn.fd, EXCEPTION) in owed <==> pri && !closed && !hung && !bad)
      && ((turn.ptr, turn.fd, WRITE) in owed <==> !alarm && n / 4 % 2 == 1)
      && ((turn.ptr, turn.fd, READ) in owed <==> !alarm && n % 2 == 1 && (n / 4 % 2 == 1 ==> Verdict(v.first) == 0))
      && (alarm ==> |owed| == 1)
      && (forall c | c in owed :: c.0 == turn.ptr && c.1 == turn.fd)
  {
    hide Verdict;
  }

  // ----- calls of the service -----

  // All turns but the last one came to 0, and `ret` is what the last one came to.
  ghost predicate Ends(turns: seq<Turn>, v: nat -> Serving, ret: int) {
    ret == (if turns == [] then 0 else var last := turns[|turns| - 1]; Outcome(last, v(last.place))) &&
    forall k | 0 <= k < |turns| - 1 :: Outcome(turns[k], v(turns[k].place)) == 0
  }

  lemma EndsLater(turn: Turn, turns: seq<Turn>, v: nat -> Serving, ret: int)
    requires Outcome(turn, v(turn.place)) == 0 && Ends(turns, v, ret)
    ensures Ends([turn] + turns, v, ret)
  {
    hide Outcome;
  }

  // The callbacks of the loop, other than those for USER, are those that its turns are worth; it ends
  // with the first turn that comes to other than 0.
  lemma {:induction false} LoopTells(s: State, i: nat, v: nat -> Serving)
    requires Fits(s)
    ensures var r := Loop(s, i, v); Own(r.calls) == AllOwed(r.turns, v) && Ends(r.turns, v, r.ret)
    decreases if i < |s.slots| then |s.slots| - i else 0
  {
    hide Own, Owed, Outcome, ServiceCb;
    OwnNone();
    if i < s.count {
      if s.slots[i].revents <= 0 {
        LoopTells(s, i + 1, v);
      } else if s.slots[i].fd != INVALID {
        var turn, y := TurnAt(s, i), ServeAt(s, i, v(i));
        ServiceCbTells(Taken(s, i), turn, v(i));
        if y.ret == CONTINUE && !y.state.resync {
          LoopTells(y.state, i + 1, v);
          var rest := Loop(y.state, i + 1, v);
          OwnAppend(y.calls, rest.calls);
          AllOwedNext(turn, rest.turns, v);
          EndsLater(turn, rest.turns, v, rest.ret);
        } else {
          AllOwedNext(turn, [], v);
          assert [turn] + [] == [turn];
        }
      }
    }
  }

  lemma AllOwedNext(turn: Turn, turns: seq<Turn>, v: nat -> Serving)
    ensures AllOwed([turn] + turns, v) == Owed(turn, v(turn.place)) + AllOwed(turns, v)
  {
    hide Owed;
    assert ([turn] + turns)[1..] == turns;
  }

  lemma ServiceTells(s: State, report: nat -> int, v: nat -> Serving)
    requires Fits(s)
    ensures var r := Service(s, report, v); Own(r.calls) == AllOwed(r.turns, v) && Ends(r.turns, v, r.ret)
  {
    hide Own, AllOwed, Loop, Ends;
    LoopTells(Polled(s, report), 0, v);
  }
}
