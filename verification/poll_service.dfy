/**
 The service loop of the poll build of src/net/event.c: what poll reported is served slot by slot,
 until a callback answers other than CONTINUE or an event enters or leaves the array.
 */
module PollService {
  import opened Options
  import opened PollModel

  datatype Reason = READ | WRITE | ERROR | HUNGED | CLOSED | EXCEPTION | USER

  // A callback made, and whether its event was still in memory.
  datatype Call = Call(ptr: Option<Ptr>, fd: int, reason: Reason, live: bool)

  const DISCONNECT := -1
  const CONTINUE := 0
  const RELOOP := 1
  const ACCEPT := 2
  const USERCALL := 3
  const BREAK := 4

  // The flags of poll.h; POLLRDHUP where there is one.
  const POLLIN := 1
  const POLLPRI := 2
  const POLLOUT := 4
  const POLLERR := 8
  const POLLHUP := 16
  const POLLRDHUP := 0x2000

  predicate Has(revents: int, flag: int)
    requires flag > 0
  {
    revents / flag % 2 == 1
  }

  // A callback's acts and its return code, and what CLEAR does should the engine delete the event
  // because of that code; or USERCALL, and the callback after that.
  type Code = c: int | c != USERCALL witness 0
  datatype Reaction = Return(acts: Acts, code: Code, clear: Acts) | Again(acts: Acts, next: Reaction)

  // What the callbacks of one event do: the first, and READ after WRITE.
  datatype Serving = Serving(first: Reaction, second: Reaction)

  datatype Reply = Reply(state: State, ret: int, calls: seq<Call>)

  predicate Kept(s: State, t: State) { Fits(t) && |t.slots| == |s.slots| && (s.resync ==> t.resync) }

  function Made(s: State, q: Option<Ptr>, fd: int, reason: Reason): Call {
    Call(q, fd, reason, q.Some? && q.value in s.mem)
  }

  // The loop of XEvents_EventCb while the callback asks for USER.
  function UserCalls(s: State, q: Option<Ptr>, fd: int, r: Reaction): (y: Reply)
    requires Fits(s)
    ensures Kept(s, y.state)
    decreases r
  {
    var s1 := Perform(s, r.acts);
    var call := Made(s, q, fd, USER);
    match r
    case Return(_, code, _) => Reply(s1, code, [call])
    case Again(_, next) => var n := UserCalls(s1, q, fd, next); n.(calls := [call] + n.calls)
  }

  function EventCb(s: State, q: Option<Ptr>, fd: int, reason: Reason, r: Reaction): (y: Reply)
    requires Fits(s)
    ensures Kept(s, y.state)
  {
    var s1 := Perform(s, r.acts);
    var call := Made(s, q, fd, reason);
    match r
    case Return(_, code, clear) =>
      if code == ACCEPT then Reply(s1, RELOOP, [call])
      else if code <= DISCONNECT then
        Reply(if q.Some? && q.value in s1.mem then Delete(s1, q.value, clear) else s1, DISCONNECT, [call])
      else Reply(s1, code, [call])
    case Again(_, next) => var n := UserCalls(s1, q, fd, next); n.(calls := [call] + n.calls)
  }

  // XEVENTS_RETURN_VALUE
  function Stopping(y: Reply): Reply { if y.ret == CONTINUE then y.(ret := RELOOP) else y }

  // The event remembers what poll reported.
  function Seen(s: State, q: Option<Ptr>, revents: int): (t: State)
    requires Fits(s)
    ensures Kept(s, t)
  {
    if q.Some? && q.value in s.mem then s.(mem := s.mem[q.value := s.mem[q.value].(events := revents)]) else s
  }

  function ServiceCb(s: State, q: Option<Ptr>, fd: int, revents: int, v: Serving): (y: Reply)
    requires Fits(s)
    ensures Kept(s, y.state)
  {
    var s0 := Seen(s, q, revents);
    if Has(revents, POLLRDHUP) then Stopping(EventCb(s0, q, fd, CLOSED, v.first))
    else if Has(revents, POLLHUP) then Stopping(EventCb(s0, q, fd, HUNGED, v.first))
    else if Has(revents, POLLERR) then Stopping(EventCb(s0, q, fd, ERROR, v.first))
    else if Has(revents, POLLPRI) then Stopping(EventCb(s0, q, fd, EXCEPTION, v.first))
    else
      var w := if Has(revents, POLLOUT) then EventCb(s0, q, fd, WRITE, v.first) else Reply(s0, CONTINUE, []);
      if w.ret != CONTINUE || !Has(revents, POLLIN) then w
      else var r := EventCb(w.state, q, fd, READ, v.second); r.(calls := w.calls + r.calls)
  }

  // A slot's turn: its place and descriptor, the data the hash has for it, and what was reported.
  datatype Turn = Turn(place: nat, fd: int, ptr: Option<Ptr>, revents: int)

  // `resynced` is set when the loop ended because of bResync.
  datatype Served = Served(state: State, ret: int, resynced: bool, turns: seq<Turn>, calls: seq<Call>)

  function TurnAt(s: State, i: nat): Turn
    requires i < |s.slots|
  {
    var fd := s.slots[i].fd;
    Turn(i, fd, if fd in s.index then Some(s.index[fd]) else None, s.slots[i].revents)
  }

  // The report of the slot is taken.
  function Taken(s: State, i: nat): (t: State)
    requires Fits(s) && i < |s.slots|
    ensures Kept(s, t)
  {
    s.(slots := s.slots[i := s.slots[i].(revents := 0)])
  }

  function ServeAt(s: State, i: nat, v: Serving): (y: Reply)
    requires Fits(s) && i < |s.slots|
    ensures Kept(s, y.state)
  {
    ServiceCb(Taken(s, i), TurnAt(s, i).ptr, s.slots[i].fd, s.slots[i].revents, v)
  }

  function Loop(s: State, i: nat, v: nat -> Serving): (r: Served)
    requires Fits(s)
    ensures Fits(r.state) && |r.state.slots| == |s.slots|
    decreases if i < |s.slots| then |s.slots| - i else 0
  {
    if i >= s.count then Served(s, CONTINUE, false, [], [])
    else if s.slots[i].revents <= 0 then Loop(s, i + 1, v)
    else if s.slots[i].fd == INVALID then Served(s, CONTINUE, false, [], [])
    else
      var y := ServeAt(s, i, v(i));
      if y.ret != CONTINUE then Served(y.state, y.ret, false, [TurnAt(s, i)], y.calls)
      else if y.state.resync then Served(y.state.(resync := false), CONTINUE, true, [TurnAt(s, i)], y.calls)
      else
        var rest := Loop(y.state, i + 1, v);
        rest.(turns := [TurnAt(s, i)] + rest.turns, calls := y.calls + rest.calls)
  }

  // What was served so far, and then the rest.
  function Then(turns: seq<Turn>, calls: seq<Call>, rest: Served): Served {
    rest.(turns := turns + rest.turns, calls := calls + rest.calls)
  }

  lemma SelfServed(r: Served)
    ensures Then([], [], r) == r
  {
  }

  lemma ThenThen(turns: seq<Turn>, calls: seq<Call>, more: seq<Turn>, others: seq<Call>, rest: Served)
    ensures Then(turns, calls, Then(more, others, rest)) == Then(turns + more, calls + others, rest)
  {
  }

  // What the kernel writes into the slots in use.
  function Polled(s: State, report: nat -> int): (t: State)
    requires Fits(s)
    ensures Fits(t) && |t.slots| == |s.slots|
  {
    s.(slots := seq(|s.slots|, i requires 0 <= i < |s.slots| =>
      if i < s.count then s.slots[i].(revents := report(i)) else s.slots[i]))
  }

  function Service(s: State, report: nat -> int, v: nat -> Serving): (r: Served)
    requires Fits(s)
    ensures Fits(r.state) && |r.state.slots| == |s.slots|
  {
    Loop(Polled(s, report), 0, v)
  }

  // ======================= the rules for callbacks =======================

  // An event's own callback may get rid of it, and then only return a code that makes the engine
  // leave it alone.
  ghost predicate LawfulUser(s: State, p: Ptr, r: Reaction)
    requires Fits(s)
    decreases r
  {
    Lawful(s, r.acts, {}) &&
    match r
    case Return(_, code, _) => code == CONTINUE ==> p in Perform(s, r.acts).mem
    case Again(_, next) => p in Perform(s, r.acts).mem && LawfulUser(Perform(s, r.acts), p, next)
  }

  ghost predicate LawfulReaction(s: State, p: Ptr, r: Reaction)
    requires Fits(s)
  {
    Lawful(s, r.acts, {}) &&
    match r
    case Return(_, code, clear) =>
      (code == CONTINUE ==> p in Perform(s, r.acts).mem) &&
      (code <= DISCONNECT ==> LawfulAct(Perform(s, r.acts), Remove(p, clear), {}))
    case Again(_, next) => p in Perform(s, r.acts).mem && LawfulUser(Perform(s, r.acts), p, next)
  }

  predicate Alone(revents: int) { Has(revents, POLLRDHUP) || Has(revents, POLLHUP) || Has(revents, POLLERR) || Has(revents, POLLPRI) }

  ghost predicate LawfulServing(s: State, p: Ptr, fd: int, revents: int, v: Serving)
    requires Fits(s)
  {
    var s0 := Seen(s, Some(p), revents);
    if Alone(revents) then LawfulReaction(s0, p, v.first)
    else
      (Has(revents, POLLOUT) ==> LawfulReaction(s0, p, v.first)) &&
      var w := if Has(revents, POLLOUT) then EventCb(s0, Some(p), fd, WRITE, v.first) else Reply(s0, CONTINUE, []);
      w.ret == CONTINUE && Has(revents, POLLIN) ==> LawfulReaction(w.state, p, v.second)
  }

  ghost predicate LawfulLoop(s: State, i: nat, v: nat -> Serving)
    requires Fits(s)
    decreases if i < |s.slots| then |s.slots| - i else 0
  {
    if i >= s.count then true
    else if s.slots[i].revents <= 0 then LawfulLoop(s, i + 1, v)
    else
      (TurnAt(s, i).ptr.Some? ==> LawfulServing(Taken(s, i), TurnAt(s, i).ptr.value, s.slots[i].fd, s.slots[i].revents, v(i))) &&
      var y := ServeAt(s, i, v(i));
      y.ret == CONTINUE && !y.state.resync ==> LawfulLoop(y.state, i + 1, v)
  }

  // ======================= the array between two turns =======================

  // The hash, and descriptors and reports of the slots in use, are as they were.
  ghost predicate Steady(s: State, t: State) {
    && t.count == s.count <= |s.slots| == |t.slots| && t.index == s.index
    && forall i | 0 <= i < s.count :: t.slots[i].fd == s.slots[i].fd && t.slots[i].revents == s.slots[i].revents
  }

  lemma SteadyTransitive(s: State, t: State, u: State)
    requires Steady(s, t) && Steady(t, u)
    ensures Steady(s, u)
  {
  }

  // What may happen without bResync being set leaves the array steady.
  lemma {:induction false} DoSteady(s: State, a: Act, dying: set<Ptr>)
    requires Agree(s) && Fits(s) && Dying(s, dying) && LawfulAct(s, a, dying)
    ensures !Do(s, a).resync ==> Steady(s, Do(s, a))
    decreases a, 2
  {
    hide Agree, Perform, Unlisted, Lawful;
    match a
    case Remove(p, clear) => RemoveSteady(s, p, clear, dying);
    case _ =>
  }

  lemma {:induction false} RemoveSteady(s: State, p: Ptr, clear: Acts, dying: set<Ptr>)
    requires Agree(s) && Fits(s) && Dying(s, dying) && LawfulAct(s, Remove(p, clear), dying)
    ensures !Delete(s, p, clear).resync ==> Steady(s, Delete(s, p, clear))
    decreases clear, 1
  {
    hide Agree, Perform, Unlisted, Lawful;
    UnlistedAgrees(s, p, dying);
    if Listed(s, p) {
      UnlistedFields(s, p);
    } else {
      DeleteUnlisted(s, p);
      PerformSteady(s, clear, dying + {p});
    }
  }

  lemma {:induction false} PerformSteady(s: State, acts: Acts, dying: set<Ptr>)
    requires Agree(s) && Fits(s) && Dying(s, dying) && Lawful(s, acts, dying)
    ensures !Perform(s, acts).resync ==> Steady(s, Perform(s, acts))
    decreases acts, 0
  {
    hide Agree, Do, Dying;
    match acts
    case Nil =>
    case Cons(a, rest) =>
      DoAgrees(s, a, dying);
      DoSteady(s, a, dying);
      PerformSteady(Do(s, a), rest, dying);
      if !Perform(s, acts).resync { SteadyTransitive(s, Do(s, a), Perform(s, acts)); }
  }

  // ======================= callbacks =======================

  // Array and hash agree, the callbacks were made on live events, and after CONTINUE the event is there.
  ghost predicate Sound(s: State, p: Ptr, y: Reply) {
    && Agree(y.state) && (forall i | 0 <= i < |y.calls| :: y.calls[i].live)
    && (y.ret == CONTINUE ==> p in y.state.mem)
    && (!y.state.resync ==> Steady(s, y.state))
  }

  lemma ActsSound(s: State, acts: Acts)
    requires Agree(s) && Fits(s) && Lawful(s, acts, {})
    ensures Agree(Perform(s, acts)) && (!Perform(s, acts).resync ==> Steady(s, Perform(s, acts)))
  {
    hide Agree;
    assert Dying(s, {});
    PerformAgrees(s, acts, {});
    PerformSteady(s, acts, {});
  }

  lemma {:induction false} UserSound(s: State, p: Ptr, fd: int, r: Reaction)
    requires Agree(s) && Fits(s) && p in s.mem && LawfulUser(s, p, r)
    ensures Sound(s, p, UserCalls(s, Some(p), fd, r))
    decreases r
  {
    hide Agree, Perform, Lawful;
    ActsSound(s, r.acts);
    match r
    case Return(_, _, _) =>
    case Again(_, next) =>
      var s1 := Perform(s, r.acts);
      UserSound(s1, p, fd, next);
      var y := UserCalls(s1, Some(p), fd, next);
      if !y.state.resync { SteadyTransitive(s, s1, y.state); }
  }

  lemma EventSound(s: State, p: Ptr, fd: int, reason: Reason, r: Reaction)
    requires Agree(s) && Fits(s) && p in s.mem && LawfulReaction(s, p, r)
    ensures Sound(s, p, EventCb(s, Some(p), fd, reason, r))
  {
    hide Agree, Perform, Delete, Lawful, LawfulAct;
    ActsSound(s, r.acts);
    var s1 := Perform(s, r.acts);
    match r
    case Return(_, code, clear) =>
      if code <= DISCONNECT { DropSound(s, s1, p, clear); }
    case Again(_, next) =>
      UserSound(s1, p, fd, next);
      var y := UserCalls(s1, Some(p), fd, next);
      if !y.state.resync { SteadyTransitive(s, s1, y.state); }
  }

  lemma DropSound(s: State, s1: State, p: Ptr, clear: Acts)
    requires Agree(s1) && Fits(s1) && LawfulAct(s1, Remove(p, clear), {}) && (!s1.resync ==> Steady(s, s1))
    ensures p in s1.mem && Agree(Delete(s1, p, clear)) && (!Delete(s1, p, clear).resync ==> Steady(s, Delete(s1, p, clear)))
  {
    hide Agree, Delete, Lawful;
    assert Dying(s1, {});
    RemoveAgrees(s1, p, clear, {});
    RemoveSteady(s1, p, clear, {});
    if !Delete(s1, p, clear).resync { SteadyTransitive(s, s1, Delete(s1, p, clear)); }
  }

  lemma SeenAgrees(s: State, p: Ptr, revents: int)
    requires Agree(s) && Fits(s) && p in s.mem
    ensures Agree(Seen(s, Some(p), revents)) && Steady(s, Seen(s, Some(p), revents))
  {
    var t := Seen(s, Some(p), revents);
    forall i | 0 <= i < t.count ensures SlotAgrees(t, i) { assert SlotAgrees(s, i); }
    forall fd | fd in t.index ensures KeyAgrees(t, fd) { assert KeyAgrees(s, fd); }
    forall q | q in t.mem && t.mem[q].index >= 0 ensures Listed(t, q) { assert Listed(s, q); }
  }

  lemma ServingSound(s: State, p: Ptr, fd: int, revents: int, v: Serving)
    requires Agree(s) && Fits(s) && p in s.mem && LawfulServing(s, p, fd, revents, v)
    ensures Sound(s, p, ServiceCb(s, Some(p), fd, revents, v))
  {
    hide Agree, EventCb, LawfulReaction, Has;
    SeenAgrees(s, p, revents);
    var s0 := Seen(s, Some(p), revents);
    if Alone(revents) {
      var reason := if Has(revents, POLLRDHUP) then CLOSED else if Has(revents, POLLHUP) then HUNGED
                    else if Has(revents, POLLERR) then ERROR else EXCEPTION;
      FromSeen(s, s0, p, fd, reason, v.first);
    } else if Has(revents, POLLOUT) {
      FromSeen(s, s0, p, fd, WRITE, v.first);
      var w := EventCb(s0, Some(p), fd, WRITE, v.first);
      if w.ret == CONTINUE && Has(revents, POLLIN) { FromSeen(s, w.state, p, fd, READ, v.second); }
    } else if Has(revents, POLLIN) {
      FromSeen(s, s0, p, fd, READ, v.second);
    }
  }

  lemma FromSeen(s: State, s1: State, p: Ptr, fd: int, reason: Reason, r: Reaction)
    requires Agree(s1) && Fits(s1) && p in s1.mem && (!s1.resync ==> Steady(s, s1)) && LawfulReaction(s1, p, r)
    ensures Sound(s, p, EventCb(s1, Some(p), fd, reason, r))
  {
    hide Agree, EventCb, LawfulReaction;
    EventSound(s1, p, fd, reason, r);
    var t := EventCb(s1, Some(p), fd, reason, r).state;
    if !t.resync { SteadyTransitive(s, s1, t); }
  }

  // ======================= the loop =======================

  // The slots from i on that have a report.
  ghost function Ready(s: State, i: nat): seq<Turn>
    requires Fits(s)
    decreases if i < s.count then s.count - i else 0
  {
    if i >= s.count then []
    else (if s.slots[i].revents > 0 then [TurnAt(s, i)] else []) + Ready(s, i + 1)
  }

  // From i on, descriptors, reports and the hash are as in s0.
  ghost predicate SteadyFrom(s0: State, s: State, i: nat) {
    && s.count == s0.count <= |s0.slots| == |s.slots| && s.index == s0.index
    && forall k | i <= k < s0.count :: s.slots[k].fd == s0.slots[k].fd && s.slots[k].revents == s0.slots[k].revents
  }

  lemma TakenAgrees(s: State, i: nat)
    requires Agree(s) && i < s.count
    ensures Agree(Taken(s, i)) && SteadyFrom(s, Taken(s, i), i + 1)
    ensures TurnAt(s, i).ptr.Some? && TurnAt(s, i).ptr.value in s.mem && s.mem[TurnAt(s, i).ptr.value].index == i
    ensures s.slots[i].fd != INVALID
  {
    assert SlotAgrees(s, i);
    var t := Taken(s, i);
    forall k | 0 <= k < t.count ensures SlotAgrees(t, k) { assert SlotAgrees(s, k); }
    forall fd | fd in t.index ensures KeyAgrees(t, fd) { assert KeyAgrees(s, fd); }
    forall q | q in t.mem && t.mem[q].index >= 0 ensures Listed(t, q) { assert Listed(s, q); }
  }

  // Each turn is that of a slot reported, in order, with the data that was listed for it when poll
  // returned; none is left out unless a callback answered other than CONTINUE or bResync was set.
  // And array and hash agree, and all callbacks were made on live events.
  lemma {:induction false} LoopServes(s0: State, s: State, i: nat, v: nat -> Serving)
    requires Fits(s0) && Fits(s) && Agree(s) && SteadyFrom(s0, s, i) && LawfulLoop(s, i, v)
    ensures var r := Loop(s, i, v);
      Agree(r.state) && (forall k | 0 <= k < |r.calls| :: r.calls[k].live) &&
      r.turns <= Ready(s0, i) && (r.ret == CONTINUE && !r.resynced ==> r.turns == Ready(s0, i))
    decreases if i < |s.slots| then |s.slots| - i else 0
  {
    hide Agree, ServiceCb, LawfulServing, Steady;
    if i < s.count {
      if s.slots[i].revents <= 0 {
        LoopServes(s0, s, i + 1, v);
      } else {
        TakenAgrees(s, i);
        var p := TurnAt(s, i).ptr.value;
        ServingSound(Taken(s, i), p, s.slots[i].fd, s.slots[i].revents, v(i));
        assert TurnAt(s, i) == TurnAt(s0, i);
        var y := ServeAt(s, i, v(i));
        if y.ret == CONTINUE {
          if y.state.resync {
            ResyncCleared(y.state);
          } else {
            SteadyOn(s0, s, y.state, i);
            LoopServes(s0, y.state, i + 1, v);
          }
        }
      }
    }
  }

  lemma LoopEnds(s: State, i: nat, v: nat -> Serving)
    requires Fits(s) && i >= s.count
    ensures Loop(s, i, v) == Served(s, CONTINUE, false, [], [])
  {
  }

  // One round of the loop.
  lemma LoopStep(s: State, i: nat, v: nat -> Serving)
    requires Agree(s) && Fits(s) && i < s.count && LawfulLoop(s, i, v)
    ensures if s.slots[i].revents <= 0 then Loop(s, i, v) == Loop(s, i + 1, v) && LawfulLoop(s, i + 1, v)
      else
        var turn, y := TurnAt(s, i), ServeAt(s, i, v(i));
        s.slots[i].fd != INVALID && turn.ptr.Some? && LawfulServing(Taken(s, i), turn.ptr.value, s.slots[i].fd, s.slots[i].revents, v(i)) &&
        if y.ret != CONTINUE then Loop(s, i, v) == Then([turn], y.calls, Served(y.state, y.ret, false, [], []))
        else if y.state.resync then Loop(s, i, v) == Then([turn], y.calls, Served(y.state.(resync := false), CONTINUE, true, [], []))
        else Loop(s, i, v) == Then([turn], y.calls, Loop(y.state, i + 1, v)) && LawfulLoop(y.state, i + 1, v)
  {
    hide Agree, ServeAt, LawfulServing;
    TakenAgrees(s, i);
  }

  lemma ResyncCleared(s: State)
    requires Agree(s)
    ensures Agree(s.(resync := false))
  {
    var t := s.(resync := false);
    forall k | 0 <= k < t.count ensures SlotAgrees(t, k) { assert SlotAgrees(s, k); }
    forall fd | fd in t.index ensures KeyAgrees(t, fd) { assert KeyAgrees(s, fd); }
    forall q | q in t.mem && t.mem[q].index >= 0 ensures Listed(t, q) { assert Listed(s, q); }
  }

  lemma SteadyOn(s0: State, s: State, t: State, i: nat)
    requires SteadyFrom(s0, s, i) && Fits(s) && i < s.count && Steady(Taken(s, i), t)
    ensures SteadyFrom(s0, t, i + 1)
  {
  }

  // An event added or deleted outside the loop leaves bResync set, and then the next call serves
  // one event at most, whatever poll reported.
  lemma {:induction false} StaleResync(s: State, i: nat, v: nat -> Serving)
    requires Fits(s) && s.resync
    ensures |Loop(s, i, v).turns| <= 1
    decreases if i < |s.slots| then |s.slots| - i else 0
  {
    hide ServiceCb;
    if i < s.count && s.slots[i].revents <= 0 { StaleResync(s, i + 1, v); }
  }

  lemma PolledAgrees(s: State, report: nat -> int)
    requires Agree(s) && Fits(s)
    ensures Agree(Polled(s, report))
  {
    var t := Polled(s, report);
    forall k | 0 <= k < t.count ensures SlotAgrees(t, k) { assert SlotAgrees(s, k); }
    forall fd | fd in t.index ensures KeyAgrees(t, fd) { assert KeyAgrees(s, fd); }
    forall q | q in t.mem && t.mem[q].index >= 0 ensures Listed(t, q) { assert Listed(s, q); }
  }

  // So a call of the service serves exactly what poll reported, up to where it stops.
  lemma ServiceServes(s: State, report: nat -> int, v: nat -> Serving)
    requires Agree(s) && Fits(s) && LawfulLoop(Polled(s, report), 0, v)
    ensures var r, ready := Service(s, report, v), Ready(Polled(s, report), 0);
      Agree(r.state) && (forall k | 0 <= k < |r.calls| :: r.calls[k].live) &&
      r.turns <= ready && (r.ret == CONTINUE && !r.resynced ==> r.turns == ready) && (s.resync ==> |r.turns| <= 1)
  {
    hide Agree, Loop, LawfulLoop, Ready;
    var s0 := Polled(s, report);
    PolledAgrees(s, report);
    LoopServes(s0, s0, 0, v);
    if s.resync { StaleResync(s0, 0, v); }
  }

  // ======================= runs =======================

  datatype Round = Outside(acts: Acts) | Called(report: nat -> int, v: nat -> Serving)

  function Step(s: State, round: Round): (t: State)
    requires Fits(s)
    ensures Fits(t)
  {
    match round
    case Outside(acts) => Perform(s, acts)
    case Called(report, v) => Service(s, report, v).state
  }

  function Run(s: State, rounds: seq<Round>): (t: State)
    requires Fits(s)
    ensures Fits(t)
    decreases |rounds|
  {
    if rounds == [] then s else Run(Step(s, rounds[0]), rounds[1..])
  }

  ghost predicate LawfulRun(s: State, rounds: seq<Round>)
    requires Fits(s)
    decreases |rounds|
  {
    rounds == [] ||
    ((match rounds[0]
      case Outside(acts) => Lawful(s, acts, {})
      case Called(report, v) => LawfulLoop(Polled(s, report), 0, v)) &&
     LawfulRun(Step(s, rounds[0]), rounds[1..]))
  }

  // Array and hash agree over every run of registrations and of calls of the service.
  lemma {:induction false} RunAgrees(s: State, rounds: seq<Round>)
    requires Agree(s) && Fits(s) && LawfulRun(s, rounds)
    ensures Agree(Run(s, rounds))
    decreases |rounds|
  {
    hide Agree, Perform, Service, Lawful, LawfulLoop;
    if rounds != [] {
      match rounds[0] {
        case Outside(acts) => ActsSound(s, acts);
        case Called(report, v) => ServiceServes(s, report, v);
      }
      RunAgrees(Step(s, rounds[0]), rounds[1..]);
    }
  }
}
