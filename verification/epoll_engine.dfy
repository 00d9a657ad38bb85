/**
 The epoll build of src/net/event.c as it runs: fields updated in place, loops over the batch.
 Every method takes the state where the function of EpollModel of its name takes it.
 */
module EpollEngine {
  import opened Options
  import opened EpollModel
  import opened EpollTheorems

  class Engine {
    var mem: map<Ptr, Data>        // the heap's event data
    var kernel: map<int, Ptr>      // what epoll_ctl has registered
    var index: map<int, Ptr>       // eventsMap
    const useHash: bool
    const batch: array<Slot>       // pEventArray
    var wait: nat                  // nWaitCount
    var count: nat                 // nEventCount
    var serial: nat                // numbers the registrations
    ghost var calls: seq<Call>
    ghost var broken: bool
    ghost var served: seq<Turn>
    ghost var fault: bool

    ghost function Now(): State
      reads this, batch
    {
      State(mem, kernel, index, useHash, batch[..], wait, count, serial, calls, broken, served, fault)
    }

    constructor (useHash: bool, max: nat, none: Slot)
      ensures Fresh(Now()) && this.useHash == useHash && fresh(batch) && batch.Length == max
    {
      this.useHash, wait, count, serial := useHash, 0, 0, 0;
      mem, kernel, index := map[], map[], map[];
      batch := new Slot[max](_ => none);
      calls, broken, served, fault := [], false, [], false;
    }

    method Add(p: Ptr, fd: int, kind: Kind, events: Ready, ctlOk: bool, hashOk: bool) returns (ok: bool)
      modifies this
      ensures Now() == EpollModel.Add(old(Now()), p, fd, kind, events, ctlOk, hashOk) && wait == old(wait)
    {
      if fd < 0 { return false; }
      if !ctlOk || fd in kernel { return false; }
      ghost var before := kernel;
      kernel := kernel[fd := p];
      if useHash {
        if !hashOk || fd in index {
          kernel := kernel - {fd};
          assert kernel == before;
          return false;
        }
        index := index[fd := p];
      }
      mem := mem[p := Data(fd, kind, events, serial)];
      count := count + 1;
      serial := serial + 1;
      ok := true;
    }

    method Modify(p: Ptr, events: Ready, ctlOk: bool) returns (ok: bool)
      requires p in mem
      modifies this
      ensures Now() == EpollModel.Modify(old(Now()), p, events, ctlOk) && wait == old(wait)
    {
      var fd := mem[p].fd;
      if fd < 0 { return false; }
      if !ctlOk || fd !in kernel { return false; }
      kernel := kernel[fd := p];
      mem := mem[p := mem[p].(events := events)];
      ok := true;
    }

    // The loop over the active batch that XEvents_Delete begins with.
    method ForgetAll(p: Ptr)
      requires wait <= batch.Length
      modifies batch
      ensures batch[..] == Forget(old(batch[..]), wait, p)
    {
      for j := 0 to wait
        invariant batch[..] == Forget(old(batch[..]), j, p)
      {
        if batch[j].ptr == Some(p) {
          batch[j] := batch[j].(ptr := None);
        }
      }
    }

    // The first half of XEvents_Delete, and the event whose clear callback comes next: the one
    // that the hash finds under the descriptor.
    method Unlist(p: Ptr) returns (q: Ptr, ok: bool)
      requires p in mem && wait <= batch.Length
      modifies this, batch
      ensures Now() == Unregister(old(Now()), p) && wait == old(wait)
      ensures q == Found(old(Now()), p)
      ensures ok <==> old(mem[p].fd >= 0 && mem[p].fd in kernel)
    {
      hide Forget;
      var fd := mem[p].fd;
      ForgetAll(p);
      ok, q := false, p;
      if fd >= 0 {
        if fd in kernel {
          kernel := kernel - {fd};
          if count > 0 { count := count - 1; }
          ok := true;
        }
      }
      if useHash && fd != -1 {
        if fd in index { q := index[fd]; }
        index := index - {fd};
      }
    }

    method Delete(p: Ptr, clear: Acts) returns (ok: bool)
      requires p in mem && wait <= batch.Length
      modifies this, batch
      ensures Now() == EpollModel.Delete(old(Now()), p, clear) && wait == old(wait)
      ensures ok <==> old(mem[p].fd >= 0 && mem[p].fd in kernel)
      decreases clear, 2
    {
      hide Cleared, Unregister, Found;
      var q;
      q, ok := Unlist(p);
      ClearCb(q, clear);
    }

    method ClearCb(q: Ptr, clear: Acts)
      requires wait <= batch.Length
      modifies this, batch
      ensures Now() == Cleared(old(Now()), q, clear) && wait == old(wait)
      decreases clear, 1
    {
      hide EpollModel.Perform;
      if q in mem && mem[q].kind != Other {
        mem := mem[q := mem[q].(fd := -1)];
      }
      calls := calls + [Call(q, CLEAR, q in mem)];
      Perform(clear);
      mem := mem - {q};
    }

    // A user callback at work.
    method Perform(acts: Acts)
      requires wait <= batch.Length
      modifies this, batch
      ensures Now() == EpollModel.Perform(old(Now()), acts) && wait == old(wait)
      decreases acts, 0
    {
      match acts
      case Nil =>
      case Cons(a, rest) =>
        Do(a);
        Perform(rest);
    }

    method Do(a: Act)
      requires wait <= batch.Length
      modifies this, batch
      ensures Now() == EpollModel.Do(old(Now()), a) && wait == old(wait)
      decreases a, 3
    {
      hide EpollModel.Add, EpollModel.Modify, EpollModel.Delete;
      match a
      case Register(p, fd, kind, events, ctlOk, hashOk) =>
        if p in mem { broken := true; } else { var ok := Add(p, fd, kind, events, ctlOk, hashOk); }
      case Change(p, events, ctlOk) =>
        if !(p in mem && mem[p].fd in kernel && kernel[mem[p].fd] == p) {
          broken := true;
        } else {
          var ok := Modify(p, events, ctlOk);
        }
      case Remove(p, clear) =>
        if !(p in mem && mem[p].fd in kernel && kernel[mem[p].fd] == p) {
          broken := true;
        } else {
          var ok := Delete(p, clear);
        }
    }

    // The event with this serial number is still registered at p.
    predicate SameNow(p: Ptr, number: nat)
      reads this
    {
      p in mem && mem[p].fd in kernel && kernel[mem[p].fd] == p && mem[p].serial == number
    }

    // The callback itself; what it does with the engine is the user's.
    method CallBack(p: Ptr, number: nat, reason: Reason, acts: Acts)
      requires wait <= batch.Length
      modifies this, batch
      ensures Now() == Called(old(Now()), p, number, reason, acts) && wait == old(wait)
    {
      hide EpollModel.Perform;
      calls := calls + [EpollModel.Call(p, reason, SameNow(p, number))];
      fault := fault || !SameNow(p, number);
      Perform(acts);
    }

    ghost method JudgeNow(p: Ptr, number: nat, leaves: bool)
      modifies this
      ensures Now() == Judge(old(Now()), p, number, leaves) && wait == old(wait)
    {
      if !SameNow(p, number) && !leaves { broken := true; }
    }

    method DropNow(p: Ptr, number: nat, clear: Acts)
      requires wait <= batch.Length
      modifies this, batch
      ensures Now() == Drop(old(Now()), p, number, clear) && wait == old(wait)
    {
      hide EpollModel.Delete;
      if SameNow(p, number) { var ok := Delete(p, clear); } else { fault := true; }
    }

    method EventCb(p: Ptr, number: nat, reason: Reason, r: Reaction) returns (ret: int)
      requires wait <= batch.Length
      modifies this, batch
      ensures (Now(), ret) == EpollModel.EventCb(old(Now()), p, number, reason, r) && wait == old(wait)
    {
      hide Called, Judge, Drop, UserCalls;
      CallBack(p, number, reason, r.acts);
      match r
      case Return(_, code, clear) =>
        ret := code;
        JudgeNow(p, number, code > DISCONNECT && code != CONTINUE && code != ACCEPT);
        if ret == ACCEPT { return CONTINUE; }
        if ret <= DISCONNECT {
          DropNow(p, number, clear);
          return DISCONNECT;
        }
      case Again(_, next) =>
        JudgeNow(p, number, false);
        ret := ServeUser(p, number, next);
    }

    // The while loop of XEvents_EventCb.
    method ServeUser(p: Ptr, number: nat, r: Reaction) returns (ret: int)
      requires wait <= batch.Length
      modifies this, batch
      ensures (Now(), ret) == UserCalls(old(Now()), p, number, r) && wait == old(wait)
    {
      hide Called, Judge;
      var rest := r;
      ret := USERCALL;
      while ret == USERCALL
        invariant wait == old(wait)
        invariant if ret == USERCALL then UserCalls(Now(), p, number, rest) == UserCalls(old(Now()), p, number, r)
                  else (Now(), ret) == UserCalls(old(Now()), p, number, r)
        decreases if ret == USERCALL then 1 else 0, rest
      {
        CallBack(p, number, USER, rest.acts);
        match rest
        case Return(_, code, _) =>
          ret := code;
          JudgeNow(p, number, code != CONTINUE);
        case Again(_, next) =>
          JudgeNow(p, number, false);
          rest := next;
      }
    }

    method TimerService(p: Ptr, number: nat, ready: Ready, v: Serving) returns (ret: int)
      requires wait <= batch.Length
      modifies this, batch
      ensures (Now(), ret) == EpollModel.TimerService(old(Now()), p, number, ready, v) && wait == old(wait)
    {
      hide EpollModel.EventCb, Drop;
      if ready.readable && v.timerRead {
        ret := EventCb(p, number, TIMEOUT, v.first);
        return;
      }
      ret := EventCb(p, number, ERROR, v.first);
      DropNow(p, number, v.clear);
      ret := RELOOP;
    }

    method ServiceCb(p: Ptr, ready: Ready, v: Serving) returns (ret: int)
      requires wait <= batch.Length
      modifies this, batch
      ensures (Now(), ret) == EpollModel.ServiceCb(old(Now()), p, ready, v) && wait == old(wait)
    {
      hide EpollModel.EventCb, EpollModel.TimerService;
      if p !in mem {
        fault := true;
        return RELOOP;
      }
      var number := mem[p].serial;
      mem := mem[p := mem[p].(events := ready)];
      if mem[p].kind == Timer {
        ret := TimerService(p, number, ready, v);
        return;
      }
      if ready.rdhup {
        ret := EventCb(p, number, CLOSED, v.first);
        return;
      }
      if ready.hup {
        ret := EventCb(p, number, HUNGED, v.first);
        return;
      }
      if ready.err {
        ret := EventCb(p, number, ERROR, v.first);
        return;
      }
      if ready.pri {
        ret := EventCb(p, number, EXCEPTION, v.first);
        return;
      }
      if ready.writable {
        ret := EventCb(p, number, WRITE, v.first);
        if ret != CONTINUE { return; }
      }
      if ready.readable {
        ret := EventCb(p, number, READ, v.second);
        return;
      }
      ret := CONTINUE;
    }

    // epoll_wait: the kernel fills the front of the array.
    method Wait(slots: seq<Slot>)
      requires |slots| <= batch.Length
      modifies batch
      ensures batch[..] == slots + old(batch[..])[|slots|..]
    {
      for k := 0 to |slots|
        invariant forall m | 0 <= m < batch.Length :: batch[m] == if m < k then slots[m] else old(batch[m])
      {
        batch[k] := slots[k];
      }
    }

    // The loop over a batch of n.
    method Serve(n: nat, v: nat -> Serving) returns (ret: int)
      requires n <= batch.Length && wait == n
      modifies this, batch
      ensures (Now(), ret) == Loop(old(Now()), n, 0, v) && wait == old(wait)
    {
      hide Loop, EpollModel.ServiceCb;
      var i := 0;
      ret := CONTINUE;
      while i < n
        invariant 0 <= i <= n && wait == n && ret == CONTINUE
        invariant Loop(Now(), n, i, v) == Loop(old(Now()), n, 0, v)
        decreases n - i
      {
        LoopNext(Now(), n, i, v);
        if batch[i].ptr != None {
          ghost var turn := Turn(batch[i].ptr.value, IsTimer(Now(), batch[i].ptr.value), batch[i].ready, v(i));
          ret := ServiceCb(batch[i].ptr.value, batch[i].ready, v(i));
          served := served + [turn];
          if ret != CONTINUE { return; }
        }
        i := i + 1;
      }
      LoopNext(Now(), n, i, v);
    }

    method Service(slots: seq<Slot>, v: nat -> Serving) returns (stop: bool)
      requires |slots| <= batch.Length
      modifies this, batch
      ensures (Now(), stop) == EpollModel.Service(old(Now()), slots, v)
      ensures old(Sound(Now()) && Deliverable(Now(), slots)) ==> Sound(Now())
    {
      hide Loop, Sound, Deliverable;
      if Sound(Now()) && Deliverable(Now(), slots) { ServiceSound(Now(), slots, v); }
      Wait(slots);
      wait := |slots|;
      var ret := Serve(|slots|, v);
      wait := 0;
      stop := ret == BREAK;
    }
  }

  lemma LoopNext(s: State, n: nat, i: nat, v: nat -> Serving)
    requires i <= n <= |s.batch|
    ensures Loop(s, n, i, v) ==
      if i == n then (s, CONTINUE)
      else if s.batch[i].ptr == None then Loop(s, n, i + 1, v)
      else
        var (s1, ret) := EpollModel.Serve(s, s.batch[i].ptr.value, s.batch[i].ready, v(i));
        if ret != CONTINUE then (s1, ret) else Loop(s1, n, i + 1, v)
  {
    hide EpollModel.Serve;
  }
}
