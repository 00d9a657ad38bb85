/**
 What becomes of events while callbacks run: an event leaves the engine exactly when an act removes
 it, it never comes back under its number, and the batch in progress keeps exactly the slots of
 events that are still there.
 */
module EpollFates {
  import opened Options
  import opened EpollModel

  // Some act, in clear callbacks too, removes the event at p.
  predicate Rids(acts: Acts, p: Ptr)
    decreases acts
  {
    match acts
    case Nil => false
    case Cons(a, rest) => Removes(a, p) || Rids(rest, p)
  }

  predicate Removes(a: Act, p: Ptr)
    decreases a
  {
    match a
    case Remove(q, clear) => q == p || Rids(clear, p)
    case _ => false
  }

  // The callback's reaction gets rid of its event: by an act, or by the code that asks for it.
  predicate RidsAny(r: Reaction, p: Ptr)
    decreases r
  {
    Rids(r.acts, p) || (r.Again? && RidsAny(r.next, p))
  }

  predicate GetsRid(r: Reaction, p: Ptr) {
    RidsAny(r, p) || (r.Return? && r.code <= DISCONNECT)
  }

  // A slot of the batch afterwards: as it was if the event it was delivered for is still there.
  ghost predicate Follows(s: State, t: State, before: Slot, after: Slot) {
    if before.ptr.Some? && before.ptr.value in s.mem && !Same(t, before.ptr.value, s.mem[before.ptr.value].serial)
    then after == before.(ptr := None)
    else after == before
  }

  // What everything the engine does keeps.
  ghost predicate Evolves(s: State, t: State) {
    && Inv(t) && s.serial <= t.serial && t.wait == s.wait && |t.batch| == |s.batch|
    && (forall q: Ptr, k: nat | k < s.serial && Same(t, q, k) :: Same(s, q, k))
    && (forall i | 0 <= i < s.wait && i < |s.batch| :: Follows(s, t, s.batch[i], t.batch[i]))
  }

  // In a state the invariant allows, slots point to registered events.
  lemma SlotRegistered(s: State, i: nat)
    requires Inv(s) && i < s.wait && s.batch[i].ptr.Some?
    ensures s.batch[i].ptr.value in s.mem && s.mem[s.batch[i].ptr.value].serial < s.serial
    ensures Same(s, s.batch[i].ptr.value, s.mem[s.batch[i].ptr.value].serial)
  {
  }

  lemma EvolvesTransitive(s: State, t: State, u: State)
    requires Inv(s) && Evolves(s, t) && Evolves(t, u)
    ensures Evolves(s, u)
  {
    hide Inv, Same;
    forall q: Ptr, k: nat | k < s.serial && Same(u, q, k) ensures Same(s, q, k) { assert Same(t, q, k); }
    forall i | 0 <= i < s.wait && i < |s.batch| ensures Follows(s, u, s.batch[i], u.batch[i]) {
      if s.batch[i].ptr.Some? && s.batch[i].ptr.value in s.mem {
        assert i < s.wait by { InvWait(s); }
        SlotRegistered(s, i);
        var q := s.batch[i].ptr.value;
        var k := s.mem[q].serial;
        assert Follows(s, t, s.batch[i], t.batch[i]) && Follows(t, u, t.batch[i], u.batch[i]);
        if Same(t, q, k) { SameSerial(t, q, k); }
      } else {
        assert Follows(t, u, t.batch[i], u.batch[i]);
        if s.batch[i].ptr.Some? { SlotRegistered(s, i); }
      }
    }
  }

  lemma InvWait(s: State)
    requires Inv(s)
    ensures s.wait <= |s.batch|
  {
  }

  lemma SameSerial(s: State, q: Ptr, k: nat)
    requires Same(s, q, k)
    ensures q in s.mem && s.mem[q].serial == k
  {
  }

  // What leaves registrations alone changes nothing here.
  lemma StillThere(s: State, t: State)
    requires Inv(s) && Inv(t) && s.serial == t.serial && s.wait == t.wait && s.batch == t.batch
    requires forall q: Ptr, k: nat | k < s.serial :: Same(t, q, k) == Same(s, q, k)
    ensures Evolves(s, t)
  {
    hide Inv, Same;
    InvWait(s);
    forall i | 0 <= i < s.wait && i < |s.batch| ensures Follows(s, t, s.batch[i], t.batch[i]) {
      if s.batch[i].ptr.Some? { SlotRegistered(s, i); }
    }
  }

  // The log and the flags.
  lemma NotedEvolves(s: State, calls: seq<Call>, served: seq<Turn>, broken: bool, fault: bool)
    requires Inv(s)
    ensures var t := s.(calls := calls, served := served, broken := broken, fault := fault);
      Inv(t) && Evolves(s, t) && forall q: Ptr, k: nat :: Same(t, q, k) == Same(s, q, k)
  {
    var t := s.(calls := calls, served := served, broken := broken, fault := fault);
    assert Inv(t);
    assert forall q: Ptr, k: nat :: Same(t, q, k) == Same(s, q, k);
    hide Inv, Same;
    StillThere(s, t);
  }

  lemma AddFate(s: State, p: Ptr, fd: int, kind: Kind, events: Ready, ctlOk: bool, hashOk: bool)
    requires Inv(s) && p !in s.mem
    ensures var t := Add(s, p, fd, kind, events, ctlOk, hashOk);
      Evolves(s, t) && forall q: Ptr, k: nat | k < s.serial :: Same(t, q, k) == Same(s, q, k)
  {
    hide Add;
    var t := Add(s, p, fd, kind, events, ctlOk, hashOk);
    AddInv(s, p, fd, kind, events, ctlOk, hashOk);
    Added(s, p, fd, kind, events, ctlOk, hashOk);
    forall q: Ptr, k: nat | k < s.serial ensures Same(t, q, k) == Same(s, q, k) {}
    hide Inv, Same, Registered;
    InvWait(s);
    forall i | 0 <= i < s.wait && i < |s.batch| ensures Follows(s, t, s.batch[i], t.batch[i]) {
      if s.batch[i].ptr.Some? { SlotRegistered(s, i); }
    }
  }

  lemma ModifyFate(s: State, p: Ptr, events: Ready, ctlOk: bool)
    requires Inv(s) && Registered(s, p)
    ensures var t := Modify(s, p, events, ctlOk);
      Evolves(s, t) && forall q: Ptr, k: nat | k < s.serial :: Same(t, q, k) == Same(s, q, k)
  {
    var t := Modify(s, p, events, ctlOk);
    ModifyKeeps(s, p, events, ctlOk);
    if t != s { assert t.kernel == s.kernel; }
    assert forall q: Ptr, k: nat | k < s.serial :: Same(t, q, k) == Same(s, q, k);
    assert Inv(t) && t.batch == s.batch;
    hide Inv, Same, Modify;
    StillThere(s, t);
  }

  // Unregistering takes p, and only p, out of the engine and out of the batch.
  lemma UnregisterFate(s: State, p: Ptr)
    requires Inv(s) && Registered(s, p)
    ensures var t := Closed(Unregister(s, p), p);
      Evolves(s, t) && (forall k: nat :: !Same(t, p, k)) && forall q: Ptr, k: nat | q != p :: Same(t, q, k) == Same(s, q, k)
  {
    var t := Closed(Unregister(s, p), p);
    UnregisterKeeps(s, p);
    Unregistered(s, p);
    hide Closed, Unregister;
    assert Inv(t);
    forall q: Ptr, k: nat | q != p ensures Same(t, q, k) == Same(s, q, k) {
      if q in s.mem { OtherStays(s, t, p, q); }
    }
    assert forall k: nat :: !Same(t, p, k);
    assert s.wait <= |s.batch| && t.serial == s.serial && t.wait == s.wait;
    hide Inv, Same, Registered, Keeps;
    forall i | 0 <= i < s.wait && i < |s.batch| ensures Follows(s, t, s.batch[i], t.batch[i]) {
      if s.batch[i].ptr.Some? { SlotRegistered(s, i); }
    }
    forall q: Ptr, k: nat | k < s.serial && Same(t, q, k) ensures Same(s, q, k) { assert q != p; }
  }

  // So does freeing it in the end.
  lemma FreedFate(s: State, p: Ptr)
    requires Inv(s) && p in s.mem && !Registered(s, p)
    ensures var t := s.(mem := s.mem - {p});
      Evolves(s, t) && forall q: Ptr, k: nat :: Same(t, q, k) == Same(s, q, k)
  {
    FreedKeeps(s, p);
    var t := s.(mem := s.mem - {p});
    assert forall q: Ptr, k: nat :: Same(t, q, k) == Same(s, q, k);
    hide Inv, Same, Registered;
    StillThere(s, t);
  }

  // ----- acts -----

  lemma DeleteIs(s: State, q: Ptr, clear: Acts)
    requires Inv(s) && Registered(s, q)
    ensures var t := Closed(Unregister(s, q), q);
      q in t.mem && Delete(s, q, clear) ==
      var u := Perform(t.(calls := t.calls + [Call(q, CLEAR, true)]), clear); u.(mem := u.mem - {q})
  {
    UnregisterKeeps(s, q);
    hide Perform, Unregister, Closed;
    assert Found(s, q) == q;
  }

  // An event is still there after a deletion exactly when neither it nor an act of the clear
  // callback was about it; and so for all acts, as long as they keep the rules.
  lemma {:induction false} DeleteFate(s: State, q: Ptr, clear: Acts, p: Ptr, k: nat)
    requires Inv(s) && Registered(s, q)
    ensures Evolves(s, Delete(s, q, clear))
    ensures Same(s, p, k) && !Delete(s, q, clear).broken ==> (Same(Delete(s, q, clear), p, k) <==> !Removes(Remove(q, clear), p))
    decreases clear, 2
  {
    assert q in s.mem;
    hide Inv, Same, Registered, Perform, Unregister, Closed, Delete, Evolves, Keeps, Rids;
    DeleteIs(s, q, clear);
    var t := Closed(Unregister(s, q), q);
    var t1 := t.(calls := t.calls + [Call(q, CLEAR, true)]);
    UnregisterFate(s, q);
    UnregisterKeeps(s, q);
    EvolvesInv(s, t);
    NotedEvolves(t, t1.calls, t.served, t.broken, t.fault);
    PerformFate(t1, clear, p, k);
    PerformKeeps(t1, clear);
    var u := Perform(t1, clear);
    LoggedRegistered(t, t1.calls, q);
    EvolvesInv(t, t1);
    StillHeld(t1, u, q);
    FreedFate(u, q);
    var v := u.(mem := u.mem - {q});
    EvolvesTransitive(s, t, t1);
    EvolvesTransitive(s, t1, u);
    EvolvesTransitive(s, u, v);
    if Same(s, p, k) {
      SameBelow(s, p, k);
      EvolvesBack(s, t1, u, p, k);
    }
  }

  lemma EvolvesInv(s: State, t: State)
    requires Evolves(s, t)
    ensures Inv(t) && s.serial <= t.serial && t.wait == s.wait
  {
  }

  lemma SameBelow(s: State, p: Ptr, k: nat)
    requires Inv(s) && Same(s, p, k)
    ensures k < s.serial
  {
  }

  lemma EvolvesBack(s: State, t: State, u: State, p: Ptr, k: nat)
    requires Evolves(s, t) && Evolves(t, u) && k < s.serial
    ensures Same(u, p, k) ==> Same(t, p, k)
  {
    hide Same;
  }

  lemma {:induction false} DoFate(s: State, a: Act, p: Ptr, k: nat)
    requires Inv(s)
    ensures Evolves(s, Do(s, a))
    ensures Same(s, p, k) && !Do(s, a).broken ==> (Same(Do(s, a), p, k) <==> !Removes(a, p))
    decreases a, 3
  {
    hide Inv, Same, Registered, Add, Modify, Delete, Evolves, Rids;
    if Same(s, p, k) { SameBelow(s, p, k); }
    NotedEvolves(s, s.calls, s.served, true, s.fault);
    match a
    case Register(q, fd, kind, events, ctlOk, hashOk) =>
      if q !in s.mem { AddFate(s, q, fd, kind, events, ctlOk, hashOk); }
    case Change(q, events, ctlOk) =>
      if Registered(s, q) { ModifyFate(s, q, events, ctlOk); }
    case Remove(q, clear) =>
      if Registered(s, q) { DeleteFate(s, q, clear, p, k); }
  }

  lemma {:induction false} PerformFate(s: State, acts: Acts, p: Ptr, k: nat)
    requires Inv(s)
    ensures Evolves(s, Perform(s, acts))
    ensures Same(s, p, k) && !Perform(s, acts).broken ==> (Same(Perform(s, acts), p, k) <==> !Rids(acts, p))
    decreases acts, 0
  {
    hide Inv, Same, Do, Evolves, Removes;
    match acts
    case Nil =>
      NotedEvolves(s, s.calls, s.served, s.broken, s.fault);
    case Cons(a, rest) =>
      var t := Do(s, a);
      var u := Perform(t, rest);
      DoFate(s, a, p, k);
      EvolvesInv(s, t);
      PerformFate(t, rest, p, k);
      EvolvesTransitive(s, t, u);
      PerformBreaks(t, rest);
      if Same(s, p, k) {
        SameBelow(s, p, k);
        EvolvesBack(s, t, u, p, k);
      }
  }

  lemma PerformBreaks(s: State, acts: Acts)
    requires Inv(s)
    ensures s.broken ==> Perform(s, acts).broken
    ensures Perform(s, acts).fault == s.fault && Perform(s, acts).served == s.served
  {
    hide Inv, Perform;
    PerformKeeps(s, acts);
  }

  // ----- callbacks -----

  lemma CalledFate(s: State, p: Ptr, k: nat, reason: Reason, acts: Acts)
    requires Inv(s)
    ensures var t := Called(s, p, k, reason, acts);
      Evolves(s, t) && (s.broken ==> t.broken) && t.served == s.served && t.fault == (s.fault || !Same(s, p, k))
    ensures var t := Called(s, p, k, reason, acts);
      Same(s, p, k) && !t.broken ==> (Same(t, p, k) <==> !Rids(acts, p))
  {
    hide Inv, Same, Perform, Evolves, Rids;
    var s1 := s.(calls := s.calls + [Call(p, reason, Same(s, p, k))], fault := s.fault || !Same(s, p, k));
    NotedEvolves(s, s1.calls, s.served, s.broken, s1.fault);
    PerformFate(s1, acts, p, k);
    PerformBreaks(s1, acts);
    EvolvesTransitive(s, s1, Perform(s1, acts));
  }

  lemma JudgeFate(s: State, p: Ptr, k: nat, leaves: bool)
    requires Inv(s)
    ensures var t := Judge(s, p, k, leaves);
      Evolves(s, t) && (s.broken ==> t.broken) && t.served == s.served && t.fault == s.fault &&
      Same(t, p, k) == Same(s, p, k) && (t.broken || leaves || Same(t, p, k))
  {
    hide Inv, Same, Evolves;
    NotedEvolves(s, s.calls, s.served, true, s.fault);
    NotedEvolves(s, s.calls, s.served, s.broken, s.fault);
  }

  // What a reaction keeps as long as its event is there when it is called on.
  ghost predicate Reacted(s: State, t: State, p: Ptr, k: nat, rid: bool) {
    && Evolves(s, t) && (s.broken ==> t.broken) && t.served == s.served
    && (Same(s, p, k) && !t.broken ==> t.fault == s.fault && (Same(t, p, k) <==> !rid))
  }

  lemma {:induction false} UserCallsFate(s: State, p: Ptr, k: nat, r: Reaction)
    requires Inv(s)
    ensures Reacted(s, UserCalls(s, p, k, r).0, p, k, RidsAny(r, p))
    decreases r
  {
    hide Inv, Same, Called, Judge, Evolves, Rids;
    var s1 := Called(s, p, k, USER, r.acts);
    CalledFate(s, p, k, USER, r.acts);
    EvolvesInv(s, s1);
    match r
    case Return(_, code, _) =>
      var s2 := Judge(s1, p, k, code != CONTINUE);
      JudgeFate(s1, p, k, code != CONTINUE);
      EvolvesTransitive(s, s1, s2);
    case Again(_, next) =>
      var s2 := Judge(s1, p, k, false);
      JudgeFate(s1, p, k, false);
      EvolvesTransitive(s, s1, s2);
      EvolvesInv(s1, s2);
      UserCallsFate(s2, p, k, next);
      var s3 := UserCalls(s2, p, k, next).0;
      EvolvesTransitive(s, s2, s3);
  }

  // A deletion by the engine: of an event that is there, or a fault.
  lemma DropFate(s: State, p: Ptr, k: nat, clear: Acts)
    requires Inv(s)
    ensures var t := Drop(s, p, k, clear);
      Evolves(s, t) && (s.broken ==> t.broken) && t.served == s.served && t.fault == (s.fault || !Same(s, p, k)) && !Same(t, p, k)
  {
    hide Inv, Delete, Evolves, Registered;
    if Same(s, p, k) {
      SameIs(s, p, k);
      DeleteFate(s, p, clear, p, k);
      DeleteKeeps(s, p, clear);
      DeleteGone(s, p, clear, k);
    } else {
      NotedEvolves(s, s.calls, s.served, s.broken, true);
    }
  }

  lemma SameIs(s: State, p: Ptr, k: nat)
    requires Same(s, p, k)
    ensures Registered(s, p) && p in s.mem
  {
  }

  lemma DeleteGone(s: State, p: Ptr, clear: Acts, k: nat)
    requires Inv(s) && Registered(s, p)
    ensures !Same(Delete(s, p, clear), p, k)
  {
    hide Delete, Inv;
    DeleteKeeps(s, p, clear);
  }

  lemma EventCbFate(s: State, p: Ptr, k: nat, reason: Reason, r: Reaction)
    requires Inv(s)
    ensures Reacted(s, EventCb(s, p, k, reason, r).0, p, k, GetsRid(r, p))
  {
    hide Inv, Same, Called, Judge, Drop, UserCalls, Evolves, Rids;
    var s1 := Called(s, p, k, reason, r.acts);
    CalledFate(s, p, k, reason, r.acts);
    EvolvesInv(s, s1);
    match r
    case Return(_, code, clear) =>
      var leaves := code > DISCONNECT && code != CONTINUE && code != ACCEPT;
      var s2 := Judge(s1, p, k, leaves);
      JudgeFate(s1, p, k, leaves);
      EvolvesTransitive(s, s1, s2);
      if code <= DISCONNECT {
        EvolvesInv(s1, s2);
        DropFate(s2, p, k, clear);
        EvolvesTransitive(s, s2, Drop(s2, p, k, clear));
      }
    case Again(_, next) =>
      var s2 := Judge(s1, p, k, false);
      JudgeFate(s1, p, k, false);
      EvolvesTransitive(s, s1, s2);
      EvolvesInv(s1, s2);
      UserCallsFate(s2, p, k, next);
      EvolvesTransitive(s, s2, UserCalls(s2, p, k, next).0);
  }

  // The engine deletes a timer it could not read after its ERROR callback, so it comes to use a
  // timer that is gone exactly when the reaction to that callback got rid of it.
  lemma TimerServiceFate(s: State, p: Ptr, k: nat, ready: Ready, v: Serving)
    requires Inv(s) && Same(s, p, k)
    ensures var t := TimerService(s, p, k, ready, v).0;
      Evolves(s, t) && (s.broken ==> t.broken) && t.served == s.served &&
      (!t.broken ==> (t.fault <==> s.fault || (!(ready.readable && v.timerRead) && GetsRid(v.first, p))))
  {
    hide Inv, Same, EventCb, Drop, Evolves, GetsRid;
    if ready.readable && v.timerRead {
      EventCbFate(s, p, k, TIMEOUT, v.first);
    } else {
      EventCbFate(s, p, k, ERROR, v.first);
      var s1 := EventCb(s, p, k, ERROR, v.first).0;
      EvolvesInv(s, s1);
      DropFate(s1, p, k, v.clear);
      EvolvesTransitive(s, s1, Drop(s1, p, k, v.clear));
    }
  }
}
