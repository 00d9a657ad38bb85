/**
 The poll build of src/net/event.c as it runs: slots moved down one by one in place, and the
 positions looked up through the hash and rewritten.
 */
module PollEngine {
  import opened Options
  import opened PollModel
  import opened PollService

  class Engine {
    var mem: map<Ptr, Item>       // the heap's event data
    var index: map<int, Ptr>      // eventsMap
    const slots: array<PollFd>    // pEventArray
    var count: nat                // nEventCount
    var checkDup: bool
    var resync: bool

    ghost function Now(): State
      reads this, slots
    {
      State(mem, index, slots[..], count, checkDup, resync)
    }

    constructor (max: nat)
      ensures Agree(Now()) && count == 0 && index == map[] && mem == map[] && checkDup && slots.Length == max && fresh(slots)
    {
      mem, index, count, checkDup, resync := map[], map[], 0, true, false;
      slots := new PollFd[max](_ => EMPTY);
    }

    // AddAgrees says when array and hash agree afterwards.
    method Add(p: Ptr, events: int, hashOk: bool) returns (ok: bool)
      requires p in mem && Fits(Now())
      modifies this, slots
      ensures Now() == PollModel.Add(old(Now()), p, events, hashOk)
      ensures ok ==> Listed(Now(), p) && resync
    {
      var fd := mem[p].fd;
      if fd == INVALID { return false; }
      if checkDup && fd in index { return false; }
      if count >= slots.Length { return false; }
      mem := mem[p := mem[p].(index := count)];
      slots[count] := PollFd(fd, events, 0);
      if !hashOk || fd in index {
        slots[count] := EMPTY;
        mem := mem[p := mem[p].(index := -1)];
        return false;
      }
      index := index[fd := p];
      mem := mem[p := mem[p].(events := events)];
      count := count + 1;
      resync := true;
      ok := true;
    }

    method Modify(p: Ptr, events: int) returns (ok: bool)
      requires p in mem && Agree(Now())
      modifies this, slots
      ensures Now() == PollModel.Modify(old(Now()), p, events) && Agree(Now())
      ensures ok <==> 0 <= old(mem[p].index) < old(count)
    {
      ModifyAgrees(Now(), p, events);
      CountFits(Now());
      hide Agree;
      var i := mem[p].index;
      if i < 0 { return false; }
      if i >= count { return false; }
      slots[i] := slots[i].(events := events);
      mem := mem[p := mem[p].(events := events)];
      ok := true;
    }

    // XEvents_Delete of data that has a slot, up to the hash: the loop that moves the others down.
    method MoveDown(p: Ptr)
      requires Agree(Now()) && Listed(Now(), p)
      modifies this, slots
      ensures Now() == Unlisted(old(Now()), p).(index := old(index)) && resync
    {
      hide Agree, Unlisted, MovedDown, Below, Shifting, Partly, SlotAgrees, KeyAgrees;
      ghost var before := Now();
      CountFits(before);
      UnlistedFields(before, p);
      var first, last := mem[p].index, count - 1;
      slots[first] := EMPTY;
      ShiftStarts(before, first);
      var i := first;
      hide Listed;
      while i < last
        invariant first <= i <= last == count - 1 && index == before.index && checkDup == before.checkDup
        invariant slots[..] == Shifting(before.slots, first, i)
        invariant mem == Partly(before.mem, first, i)
      {
        slots[i] := slots[i + 1];
        ShiftNext(before, first, i);
        var moved := slots[i].fd;
        if moved != INVALID && moved in index {
          var q := index[moved];
          if q in mem {
            mem := mem[q := mem[q].(index := i)];
          }
        }
        i := i + 1;
      }
      slots[last] := EMPTY;
      ShiftEnds(before, p, first);
      mem := mem[p := mem[p].(index := -1)];
      count := count - 1;
      resync := true;
    }

    // XEvents_Delete up to its clear callback, which is for q: what the hash has under the
    // descriptor, else p.
    method Unlist(p: Ptr) returns (q: Ptr)
      requires p in mem && Agree(Now())
      modifies this, slots
      ensures Now() == Unlisted(old(Now()), p) && q == Found(old(Now()), p)
    {
      UnlistedParts(Now(), p);
      CountFits(Now());
      hide Agree, Unlisted;
      var fd := mem[p].fd;
      if mem[p].index >= 0 && mem[p].index < count { MoveDown(p); }
      q := p;
      if fd != INVALID {
        if fd in index { q := index[fd]; }
        index := index - {fd};
      }
    }

    // The clear callback may add and delete others, with array and hash in agreement.
    method Delete(p: Ptr, clear: Acts, ghost dying: set<Ptr>)
      requires p in mem && Agree(Now())
      requires clear == Nil || (Dying(Now(), dying) && LawfulAct(Now(), Remove(p, clear), dying))
      modifies this, slots
      ensures Now() == PollModel.Delete(old(Now()), p, clear)
      decreases clear, 1
    {
      hide Agree, Unlisted, PollModel.Perform, Dying, Lawful;
      ghost var before := Now();
      CountFits(before);
      if clear != Nil { UnlistedAgrees(before, p, dying); }
      var q := Unlist(p);
      PerformNil(Now());
      if clear != Nil { Perform(clear, dying + {p}); }
      mem := mem - {q};
    }

    // What a callback does.
    method Perform(acts: Acts, ghost dying: set<Ptr>)
      requires Agree(Now()) && Fits(Now()) && Dying(Now(), dying) && Lawful(Now(), acts, dying)
      modifies this, slots
      ensures Now() == PollModel.Perform(old(Now()), acts) && Agree(Now()) && Dying(Now(), dying)
      decreases acts, 0
    {
      PerformAgrees(Now(), acts, dying);
      match acts
      case Nil =>
      case Cons(a, rest) =>
        DoAgrees(Now(), a, dying);
        Do(a, dying);
        Perform(rest, dying);
    }

    method Do(a: Act, ghost dying: set<Ptr>)
      requires Agree(Now()) && Fits(Now()) && Dying(Now(), dying) && LawfulAct(Now(), a, dying)
      modifies this, slots
      ensures Now() == PollModel.Do(old(Now()), a)
      decreases a, 2
    {
      hide Agree, PollModel.Add, PollModel.Modify, PollModel.Delete, Dying;
      match a
      case Create(p, fd) => mem := mem[p := Item(fd, -1, 0)];
      case Discard(p) => mem := mem - {p};
      case Insert(p, events, hashOk) => var ok := Add(p, events, hashOk);
      case Change(p, events) => var ok := Modify(p, events);
      case Remove(p, clear) => Delete(p, clear, dying);
    }

    // ----- the service loop -----

    method UserCalls(q: Ptr, fd: int, r: Reaction) returns (ret: int, calls: seq<Call>)
      requires Agree(Now()) && Fits(Now()) && q in mem && LawfulUser(Now(), q, r)
      modifies this, slots
      ensures Reply(Now(), ret, calls) == PollService.UserCalls(old(Now()), Some(q), fd, r)
      decreases r
    {
      hide Agree, PollModel.Perform, Lawful;
      ActsSound(Now(), r.acts);
      calls := [Call(Some(q), fd, USER, true)];
      Perform(r.acts, {});
      match r
      case Return(_, code, _) => ret := code;
      case Again(_, next) =>
        var more;
        ret, more := UserCalls(q, fd, next);
        calls := calls + more;
    }

    // The source's loop for USER is the recursion of UserCalls.
    method EventCb(q: Ptr, fd: int, reason: Reason, r: Reaction) returns (ret: int, calls: seq<Call>)
      requires Agree(Now()) && Fits(Now()) && q in mem && LawfulReaction(Now(), q, r)
      modifies this, slots
      ensures Reply(Now(), ret, calls) == PollService.EventCb(old(Now()), Some(q), fd, reason, r)
    {
      hide Agree, PollModel.Perform, PollModel.Delete, Lawful, LawfulAct;
      ActsSound(Now(), r.acts);
      calls := [Call(Some(q), fd, reason, true)];
      Perform(r.acts, {});
      match r
      case Return(_, code, clear) =>
        ret := code;
        if code == ACCEPT {
          ret := RELOOP;
        } else if code <= DISCONNECT {
          RemoveIs(Now(), q, clear);
          Delete(q, clear, {});
          ret := DISCONNECT;
        }
      case Again(_, next) =>
        var more;
        ret, more := UserCalls(q, fd, next);
        calls := calls + more;
    }

    method ServiceCb(q: Ptr, fd: int, revents: int, v: Serving) returns (ret: int, calls: seq<Call>)
      requires Agree(Now()) && Fits(Now()) && q in mem && LawfulServing(Now(), q, fd, revents, v)
      modifies this, slots
      ensures Reply(Now(), ret, calls) == PollService.ServiceCb(old(Now()), Some(q), fd, revents, v)
    {
      hide Agree, PollService.EventCb, LawfulReaction, Has;
      SeenAgrees(Now(), q, revents);
      mem := mem[q := mem[q].(events := revents)];
      ret, calls := CONTINUE, [];
      if Alone(revents) {
        var reason := if Has(revents, POLLRDHUP) then CLOSED else if Has(revents, POLLHUP) then HUNGED
                      else if Has(revents, POLLERR) then ERROR else EXCEPTION;
        ret, calls := EventCb(q, fd, reason, v.first);
        if ret == CONTINUE { ret := RELOOP; }
        return;
      }
      if Has(revents, POLLOUT) {
        EventSound(Now(), q, fd, WRITE, v.first);
        ret, calls := EventCb(q, fd, WRITE, v.first);
        if ret != CONTINUE { return; }
      }
      if Has(revents, POLLIN) {
        var more;
        ret, more := EventCb(q, fd, READ, v.second);
        calls := calls + more;
      }
    }

    // The turn of a slot with a report.
    method ServeSlot(i: nat, v: Serving) returns (turn: Turn, ret: int, calls: seq<Call>)
      requires Agree(Now()) && Fits(Now()) && i < count && slots[i].revents > 0
      requires TurnAt(Now(), i).ptr.Some? ==>
        LawfulServing(Taken(Now(), i), TurnAt(Now(), i).ptr.value, slots[i].fd, slots[i].revents, v)
      modifies this, slots
      ensures turn == TurnAt(old(Now()), i) && Reply(Now(), ret, calls) == ServeAt(old(Now()), i, v) && Agree(Now())
    {
      hide Agree, PollService.ServiceCb, LawfulServing;
      TakenAgrees(Now(), i);
      var revents, fd := slots[i].revents, slots[i].fd;
      slots[i] := slots[i].(revents := 0);
      assert Now() == Taken(old(Now()), i);
      var q := index[fd];
      turn := Turn(i, fd, Some(q), revents);
      ServingSound(Now(), q, fd, revents, v);
      ret, calls := ServiceCb(q, fd, revents, v);
    }

    // The loop of XEvents_Service over the array in which poll has put its report.
    method Service(v: nat -> Serving) returns (status: int, resynced: bool, turns: seq<Turn>, calls: seq<Call>)
      requires Agree(Now()) && Fits(Now()) && LawfulLoop(Now(), 0, v)
      modifies this, slots
      ensures Served(Now(), status, resynced, turns, calls) == Loop(old(Now()), 0, v) && Agree(Now())
    {
      hide Agree, ServeAt, TurnAt, LawfulServing, Loop, LawfulLoop;
      status, resynced, turns, calls := CONTINUE, false, [], [];
      SelfServed(Loop(Now(), 0, v));
      var i := 0;
      while i < count
        invariant Agree(Now()) && Fits(Now()) && LawfulLoop(Now(), i, v) && slots.Length == |old(Now()).slots|
        invariant Then(turns, calls, Loop(Now(), i, v)) == Loop(old(Now()), 0, v)
        invariant status == CONTINUE && !resynced
        decreases slots.Length - i
      {
        var revents, fd := slots[i].revents, slots[i].fd;
        LoopStep(Now(), i, v);
        if revents > 0 {
          if fd == INVALID { return; }
          var turn, more;
          ghost var so, far := turns, calls;
          turn, status, more := ServeSlot(i, v(i));
          turns, calls := turns + [turn], calls + more;
          if status != CONTINUE {
            ThenThen(so, far, [turn], more, Served(Now(), status, false, [], []));
            return;
          }
          if resync {
            ResyncCleared(Now());
            resync := false;
            resynced := true;
            ThenThen(so, far, [turn], more, Served(Now(), CONTINUE, true, [], []));
            return;
          }
          ThenThen(so, far, [turn], more, Loop(Now(), i + 1, v));
        }
        i := i + 1;
      }
      LoopEnds(Now(), i, v);
    }
  }

  lemma RemoveIs(s: State, p: Ptr, clear: Acts)
    requires Agree(s) && Fits(s) && LawfulAct(s, Remove(p, clear), {})
    ensures p in s.mem && Dying(s, {})
  {
    hide Agree, Lawful;
  }

  lemma PerformNil(s: State)
    requires Fits(s)
    ensures PollModel.Perform(s, Nil) == s
  {
  }

  // What has no slot only leaves the hash.
  lemma UnlistedParts(s: State, p: Ptr)
    requires Agree(s) && p in s.mem
    ensures 0 <= s.mem[p].index < s.count ==> Listed(s, p)
    ensures var t := Unlisted(s, p);
      t == (if 0 <= s.mem[p].index < s.count then t.(index := s.index) else s).(index := if s.mem[p].fd == INVALID then s.index else s.index - {s.mem[p].fd})
  {
    if s.mem[p].index >= 0 { assert Listed(s, p); }
  }

  lemma CountFits(s: State)
    requires Agree(s)
    ensures s.count <= |s.slots|
  {
  }

  // The array halfway through the loop: slots from `first` up to i hold what was after them.
  ghost function Shifting(slots: seq<PollFd>, first: nat, i: nat): (r: seq<PollFd>)
    requires first <= i < |slots|
    ensures |r| == |slots|
  {
    slots[..first] + slots[first + 1..i + 1] + (if i == first then [EMPTY] else [slots[i]]) + slots[i + 1..]
  }

  // The positions halfway through: those that were after `first`, up to i, are one less.
  ghost function Partly(mem: map<Ptr, Item>, first: int, i: int): (r: map<Ptr, Item>)
    ensures r.Keys == mem.Keys
  {
    map q | q in mem :: if first < mem[q].index <= i then mem[q].(index := mem[q].index - 1) else mem[q]
  }

  lemma ShiftStarts(s: State, first: nat)
    requires Agree(s) && first < s.count
    ensures s.slots[first := EMPTY] == Shifting(s.slots, first, first)
    ensures Partly(s.mem, first, first) == s.mem
  {
  }

  lemma ShiftNext(s: State, first: nat, i: nat)
    requires Agree(s) && first <= i < s.count - 1
    ensures var was := Shifting(s.slots, first, i);
      var fd := s.slots[i + 1].fd;
      was[i + 1] == s.slots[i + 1] && was[i := s.slots[i + 1]] == Shifting(s.slots, first, i + 1) &&
      fd != INVALID && fd in s.index && s.index[fd] in s.mem &&
      var q := s.index[fd];
      Partly(s.mem, first, i)[q := s.mem[q].(index := i)] == Partly(s.mem, first, i + 1) &&
      Partly(s.mem, first, i)[q] == s.mem[q]
  {
    assert SlotAgrees(s, i + 1);
    forall q | q in s.mem && s.mem[q].index == i + 1 ensures q == s.index[s.slots[i + 1].fd] {
      assert Listed(s, q) && KeyAgrees(s, s.mem[q].fd);
    }
    CountFits(s);
    hide Agree, Listed, KeyAgrees, Partly;
    ShiftSlots(s.slots, first, i);
    hide Shifting;
    ShiftMem(s.mem, first, i, s.index[s.slots[i + 1].fd]);
  }

  lemma ShiftMem(mem: map<Ptr, Item>, first: int, i: int, q: Ptr)
    requires first <= i && q in mem && mem[q].index == i + 1
    requires forall p | p in mem && mem[p].index == i + 1 :: p == q
    ensures Partly(mem, first, i)[q] == mem[q]
    ensures Partly(mem, first, i)[q := mem[q].(index := i)] == Partly(mem, first, i + 1)
  {
  }

  lemma ShiftSlots(slots: seq<PollFd>, first: nat, i: nat)
    requires first <= i < |slots| - 1
    ensures var was := Shifting(slots, first, i);
      was[i + 1] == slots[i + 1] && was[i := slots[i + 1]] == Shifting(slots, first, i + 1)
  {
  }

  lemma ShiftEnds(s: State, p: Ptr, first: nat)
    requires Agree(s) && Listed(s, p) && first == s.mem[p].index < s.count
    ensures var last := s.count - 1;
      Shifting(s.slots, first, last)[last := EMPTY] == MovedDown(s.slots, s.count, first) &&
      Partly(s.mem, first, last) == Below(s.mem, first) && Partly(s.mem, first, last)[p] == s.mem[p]
  {
    forall q | q in s.mem ensures s.mem[q].index < s.count {
      if s.mem[q].index >= 0 { assert Listed(s, q) && KeyAgrees(s, s.mem[q].fd); }
    }
  }
}
