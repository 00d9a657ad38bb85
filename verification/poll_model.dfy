/**
 The poll build of src/net/event.c as functions on its state: an array of descriptors kept in step
 with the hash index and with the position that each event's data remembers.
 */
module PollModel {
  type Ptr = nat

  const INVALID := -1

  // An xevent_data_t, and a struct pollfd.
  datatype Item = Item(fd: int, index: int, events: int)
  datatype PollFd = PollFd(fd: int, events: int, revents: int)

  const EMPTY := PollFd(INVALID, 0, 0)

  // The array holds nEventMax slots. bResync is set whenever an event enters or leaves it.
  datatype State = State(mem: map<Ptr, Item>, index: map<int, Ptr>, slots: seq<PollFd>, count: nat, checkDup: bool, resync: bool)

  // The array and the hash agree: the descriptor of each slot in use leads to the data that
  // remembers this slot, every descriptor in the hash is in such a slot, and no other data claims one.
  ghost predicate Agree(s: State) {
    && s.count <= |s.slots|
    && (forall i | 0 <= i < s.count :: SlotAgrees(s, i))
    && (forall i | s.count <= i < |s.slots| :: s.slots[i].fd == INVALID)
    && (forall fd | fd in s.index :: KeyAgrees(s, fd))
    && (forall p | p in s.mem && s.mem[p].index >= 0 :: Listed(s, p))
  }

  ghost predicate SlotAgrees(s: State, i: nat)
    requires i < |s.slots|
  {
    var fd := s.slots[i].fd;
    fd != INVALID && fd in s.index && s.index[fd] in s.mem && s.mem[s.index[fd]].fd == fd && s.mem[s.index[fd]].index == i
  }

  ghost predicate KeyAgrees(s: State, fd: int)
    requires fd in s.index
  {
    var p := s.index[fd];
    p in s.mem && s.mem[p].fd == fd && 0 <= s.mem[p].index < s.count <= |s.slots| && s.slots[s.mem[p].index].fd == fd
  }

  predicate Fits(s: State) { s.count <= |s.slots| }

  predicate Listed(s: State, p: Ptr) { p in s.mem && s.mem[p].fd in s.index && s.index[s.mem[p].fd] == p }

  // So no two slots in use hold one descriptor.
  lemma SlotsDistinct(s: State, i: nat, j: nat)
    requires Agree(s) && i < j < s.count
    ensures s.slots[i].fd != s.slots[j].fd
  {
    assert SlotAgrees(s, i) && SlotAgrees(s, j);
  }

  // ----- the operations -----

  function Add(s: State, p: Ptr, events: int, hashOk: bool): (r: State)
    requires p in s.mem && Fits(s)
    ensures Fits(r) && |r.slots| == |s.slots| && (s.resync ==> r.resync)
  {
    var fd := s.mem[p].fd;
    if fd == INVALID || (s.checkDup && fd in s.index) || s.count >= |s.slots| then s
    else if !hashOk || fd in s.index then
      s.(slots := s.slots[s.count := EMPTY], mem := s.mem[p := s.mem[p].(index := -1)])
    else
      s.(slots := s.slots[s.count := PollFd(fd, events, 0)], index := s.index[fd := p], count := s.count + 1,
         mem := s.mem[p := Item(fd, s.count, events)], resync := true)
  }

  function Modify(s: State, p: Ptr, events: int): (r: State)
    requires p in s.mem && Fits(s)
    ensures Fits(r) && |r.slots| == |s.slots| && (s.resync ==> r.resync)
  {
    var i := s.mem[p].index;
    if 0 <= i < s.count then
      s.(slots := s.slots[i := s.slots[i].(events := events)], mem := s.mem[p := s.mem[p].(events := events)])
    else s
  }

  // The slots after i move down one, and so do the positions remembered for them.
  function MovedDown(slots: seq<PollFd>, count: nat, i: nat): (r: seq<PollFd>)
    requires i < count <= |slots|
    ensures |r| == |slots|
  {
    slots[..i] + slots[i + 1..count] + [EMPTY] + slots[count..]
  }

  lemma MovedDownAt(slots: seq<PollFd>, count: nat, i: nat, k: nat)
    requires i < count <= |slots| && k < |slots|
    ensures MovedDown(slots, count, i)[k] ==
      (if k < i || k >= count then slots[k] else if k == count - 1 then EMPTY else slots[k + 1])
  {
  }

  function Below(mem: map<Ptr, Item>, i: nat): (r: map<Ptr, Item>)
    ensures r.Keys == mem.Keys
  {
    map q | q in mem :: if mem[q].index > i then mem[q].(index := mem[q].index - 1) else mem[q]
  }

  // XEvents_Delete up to the clear callback, which runs before the data is freed.
  function Unlisted(s: State, p: Ptr): (r: State)
    requires p in s.mem && Fits(s)
    ensures Fits(r) && |r.slots| == |s.slots| && (s.resync ==> r.resync)
  {
    var i, fd := s.mem[p].index, s.mem[p].fd;
    var s1 := if 0 <= i < s.count then
        var mem := Below(s.mem, i);
        s.(slots := MovedDown(s.slots, s.count, i), mem := mem[p := mem[p].(index := -1)], count := s.count - 1, resync := true)
      else s;
    s1.(index := if fd == INVALID then s1.index else s1.index - {fd})
  }

  // The data the hash gives to the callback, else p.
  function Found(s: State, p: Ptr): Ptr
    requires p in s.mem
  {
    var fd := s.mem[p].fd;
    if fd != INVALID && fd in s.index then s.index[fd] else p
  }

  // What a callback may do: allocate event data, free what it could not add, and the three operations
  // on data it has. Removing calls back with CLEAR, in which more may be done.
  datatype Act =
    | Create(ptr: Ptr, fd: int)
    | Discard(ptr: Ptr)
    | Insert(ptr: Ptr, events: int, hashOk: bool)
    | Change(ptr: Ptr, events: int)
    | Remove(ptr: Ptr, clear: Acts)

  datatype Acts = Nil | Cons(head: Act, tail: Acts)

  function Delete(s: State, p: Ptr, clear: Acts): (r: State)
    requires p in s.mem && Fits(s)
    ensures Fits(r) && |r.slots| == |s.slots| && (s.resync ==> r.resync)
    decreases clear, 1
  {
    var s1 := Perform(Unlisted(s, p), clear);
    s1.(mem := s1.mem - {Found(s, p)})
  }

  function Perform(s: State, acts: Acts): (r: State)
    requires Fits(s)
    ensures Fits(r) && |r.slots| == |s.slots| && (s.resync ==> r.resync)
    decreases acts, 0
  {
    match acts
    case Nil => s
    case Cons(a, rest) => Perform(Do(s, a), rest)
  }

  function Do(s: State, a: Act): (r: State)
    requires Fits(s)
    ensures Fits(r) && |r.slots| == |s.slots| && (s.resync ==> r.resync)
    decreases a, 2
  {
    match a
    case Create(p, fd) => if p in s.mem then s else s.(mem := s.mem[p := Item(fd, -1, 0)])
    case Discard(p) => s.(mem := s.mem - {p})
    case Insert(p, events, hashOk) => if p in s.mem then Add(s, p, events, hashOk) else s
    case Change(p, events) => if p in s.mem then Modify(s, p, events) else s
    case Remove(p, clear) => if p in s.mem then Delete(s, p, clear) else s
  }

  // ----- what they keep -----

  // Adding keeps array and hash in agreement, but for one case: data that is listed already, in
  // an array with room, without the check for duplicates. It then forgets its slot.
  lemma AddAgrees(s: State, p: Ptr, events: int, hashOk: bool)
    requires Agree(s) && p in s.mem
    ensures Agree(Add(s, p, events, hashOk)) <==> s.checkDup || !Listed(s, p) || s.count >= |s.slots|
    ensures var t, fd := Add(s, p, events, hashOk), s.mem[p].fd;
      hashOk && fd != INVALID && fd !in s.index && s.count < |s.slots| ==>
      Listed(t, p) && t.count == s.count + 1 && t.slots[..s.count] == s.slots[..s.count]
  {
    var t := Add(s, p, events, hashOk);
    if Listed(s, p) { assert KeyAgrees(s, s.mem[p].fd) && SlotAgrees(s, s.mem[p].index); }
    if Listed(s, p) && !s.checkDup && s.count < |s.slots| {
      assert !SlotAgrees(t, s.mem[p].index);
    } else {
      assert !Listed(s, p) ==> s.mem[p].index < 0;
      NewSlotAgrees(s, p, events, hashOk);
    }
  }

  lemma NewSlotAgrees(s: State, p: Ptr, events: int, hashOk: bool)
    requires Agree(s) && p in s.mem && (s.mem[p].index < 0 || Add(s, p, events, hashOk) == s)
    ensures Agree(Add(s, p, events, hashOk))
  {
    var t := Add(s, p, events, hashOk);
    forall i | 0 <= i < t.count ensures SlotAgrees(t, i) {
      if i < s.count { assert SlotAgrees(s, i); }
    }
    forall fd | fd in t.index ensures KeyAgrees(t, fd) {
      if fd in s.index { assert KeyAgrees(s, fd); }
    }
    forall q | q in t.mem && t.mem[q].index >= 0 ensures Listed(t, q) {
      if q in s.mem && s.mem[q].index >= 0 { assert Listed(s, q); }
    }
  }

  lemma ModifyAgrees(s: State, p: Ptr, events: int)
    requires Agree(s) && p in s.mem
    ensures Agree(Modify(s, p, events))
    ensures Modify(s, p, events).index == s.index && Modify(s, p, events).count == s.count
  {
    var t := Modify(s, p, events);
    forall i | 0 <= i < t.count ensures SlotAgrees(t, i) { assert SlotAgrees(s, i); }
    forall fd | fd in t.index ensures KeyAgrees(t, fd) { assert KeyAgrees(s, fd); }
    forall q | q in t.mem && t.mem[q].index >= 0 ensures Listed(t, q) { assert Listed(s, q); }
  }

  lemma UnlistedFields(s: State, p: Ptr)
    requires Agree(s) && Listed(s, p)
    ensures 0 <= s.mem[p].index < s.count && s.mem[p].fd != INVALID
    ensures var i := s.mem[p].index;
      Unlisted(s, p) == State(Below(s.mem, i)[p := s.mem[p].(index := -1)], s.index - {s.mem[p].fd},
                              MovedDown(s.slots, s.count, i), s.count - 1, s.checkDup, true)
  {
    assert KeyAgrees(s, s.mem[p].fd);
    assert SlotAgrees(s, s.mem[p].index);
  }

  lemma UnlistedSlot(s: State, p: Ptr, i: nat)
    requires Agree(s) && Listed(s, p) && i < Unlisted(s, p).count
    ensures i < |Unlisted(s, p).slots| && SlotAgrees(Unlisted(s, p), i)
  {
    hide Unlisted, MovedDown;
    UnlistedFields(s, p);
    var t := Unlisted(s, p);
    var was := if i < s.mem[p].index then i else i + 1;
    assert SlotAgrees(s, was) && SlotAgrees(s, s.mem[p].index);
    var fd := s.slots[was].fd;
    MovedDownAt(s.slots, s.count, s.mem[p].index, i);
    assert s.index[fd] != p;
    assert fd != s.mem[p].fd;
  }

  lemma UnlistedKey(s: State, p: Ptr, fd: int)
    requires Agree(s) && Listed(s, p) && fd in Unlisted(s, p).index
    ensures KeyAgrees(Unlisted(s, p), fd)
  {
    hide Unlisted, MovedDown, Agree;
    UnlistedFields(s, p);
    KeysAgree(s, fd);
    KeysAgree(s, s.mem[p].fd);
    var q := s.index[fd];
    assert q != p && s.mem[q].index != s.mem[p].index;
    var was := s.mem[q].index;
    MovedDownAt(s.slots, s.count, s.mem[p].index, if was < s.mem[p].index then was else was - 1);
  }

  lemma KeysAgree(s: State, fd: int)
    requires Agree(s)
    ensures fd in s.index ==> KeyAgrees(s, fd)
  {
  }

  lemma UnlistedAgree(s: State, p: Ptr)
    requires Agree(s) && Listed(s, p)
    ensures Agree(Unlisted(s, p))
  {
    hide Unlisted, SlotAgrees, KeyAgrees, MovedDown;
    UnlistedFields(s, p);
    var t := Unlisted(s, p);
    assert s.count <= |s.slots|;
    forall i | t.count <= i < |t.slots| ensures t.slots[i].fd == INVALID { MovedDownAt(s.slots, s.count, s.mem[p].index, i); }
    forall i | 0 <= i < t.count ensures SlotAgrees(t, i) { UnlistedSlot(s, p, i); }
    forall fd | fd in t.index ensures KeyAgrees(t, fd) { UnlistedKey(s, p, fd); }
    forall q | q in t.mem && t.mem[q].index >= 0 ensures Listed(t, q) { assert Listed(s, q); }
  }

  // The state in which the clear callback of a listed event runs, and the one after it.
  lemma DeleteAgrees(s: State, p: Ptr)
    requires Agree(s) && Listed(s, p)
    ensures Found(s, p) == p
    ensures Agree(Unlisted(s, p)) && Agree(Delete(s, p, Nil))
    ensures var t := Unlisted(s, p);
      t.index == s.index - {s.mem[p].fd} && t.count == s.count - 1 && t.mem.Keys == s.mem.Keys && t.mem[p].index == -1
  {
    UnlistedFields(s, p);
    UnlistedAgree(s, p);
    DeleteIs(s, p);
    hide Agree, Unlisted;
    FreedAgrees(Unlisted(s, p), p);
  }

  lemma FreedAgrees(s: State, p: Ptr)
    requires Agree(s) && p in s.mem && s.mem[p].index < 0
    ensures Agree(s.(mem := s.mem - {p}))
  {
    var t := s.(mem := s.mem - {p});
    forall i | 0 <= i < t.count ensures SlotAgrees(t, i) { assert SlotAgrees(s, i); }
    forall fd | fd in t.index ensures KeyAgrees(t, fd) { assert KeyAgrees(s, fd); }
    forall q | q in t.mem && t.mem[q].index >= 0 ensures Listed(t, q) { assert Listed(s, q); }
  }

  // Deleting data that is not listed is harmless exactly when nothing is listed under its
  // descriptor: else the hash gives up the other event, whose slot stays.
  lemma DeleteUnlisted(s: State, p: Ptr)
    requires Agree(s) && p in s.mem && !Listed(s, p)
    ensures Agree(Delete(s, p, Nil)) <==> s.mem[p].fd !in s.index
    ensures s.mem[p].fd !in s.index ==> Found(s, p) == p && Unlisted(s, p) == s
  {
    var fd, t := s.mem[p].fd, Delete(s, p, Nil);
    assert t == Unlisted(s, p).(mem := Unlisted(s, p).mem - {Found(s, p)});
    assert s.mem[p].index < 0;
    if fd in s.index {
      assert KeyAgrees(s, fd);
      var i := s.mem[s.index[fd]].index;
      assert SlotAgrees(s, i);
      assert !SlotAgrees(t, i);
    } else {
      assert t == s.(mem := s.mem - {p});
      FreedAgrees(s, p);
    }
  }

  // Deleting what was just added, and allocating it again, is where it started.
  lemma DeleteUndoesAdd(s: State, p: Ptr, events: int)
    requires Agree(s) && p in s.mem && s.mem[p].index == -1
    requires s.mem[p].fd != INVALID && s.mem[p].fd !in s.index && s.count < |s.slots|
    ensures Listed(Add(s, p, events, true), p)
    ensures var t := Delete(Add(s, p, events, true), p, Nil);
      t.index == s.index && t.count == s.count && t.slots[..t.count] == s.slots[..s.count] && t.mem == s.mem - {p}
  {
    hide Delete, Unlisted;
    AddAgrees(s, p, events, true);
    var a := Add(s, p, events, true);
    assert a == s.(slots := s.slots[s.count := PollFd(s.mem[p].fd, events, 0)], index := s.index[s.mem[p].fd := p],
                   count := s.count + 1, mem := s.mem[p := Item(s.mem[p].fd, s.count, events)], resync := true);
    forall q | q in s.mem ensures s.mem[q].index < s.count { PlaceBelow(s, q); }
    UnlistedFields(a, p);
    DeleteIs(a, p);
    hide Agree, Listed, Add, MovedDown, Below;
    SlotsBack(s.slots, s.count, a.slots[s.count]);
    BelowBack(s.mem, p, a.mem[p], s.count);
  }

  lemma SlotsBack(slots: seq<PollFd>, count: nat, last: PollFd)
    requires count < |slots|
    ensures MovedDown(slots[count := last], count + 1, count)[..count] == slots[..count]
  {
  }

  lemma BelowBack(mem: map<Ptr, Item>, p: Ptr, item: Item, i: nat)
    requires p in mem && item.index == i && forall q | q in mem :: mem[q].index < i
    ensures Below(mem[p := item], i) == mem[p := item]
  {
  }

  lemma PlaceBelow(s: State, q: Ptr)
    requires Agree(s) && q in s.mem
    ensures s.mem[q].index < s.count
  {
    if s.mem[q].index >= 0 { assert Listed(s, q) && KeyAgrees(s, s.mem[q].fd); }
  }

  lemma DeleteIs(s: State, p: Ptr)
    requires Agree(s) && Listed(s, p)
    ensures Delete(s, p, Nil) == Unlisted(s, p).(mem := Unlisted(s, p).mem - {p})
  {
    assert KeyAgrees(s, s.mem[p].fd);
    assert SlotAgrees(s, s.mem[p].index);
    hide Unlisted;
  }

  // ======================= runs =======================

  // Data whose clear callback is running.
  ghost predicate Dying(s: State, dying: set<Ptr>) {
    forall p | p in dying :: p in s.mem && s.mem[p].index < 0
  }

  // The rules for a run: malloc hands out free addresses, operations are on data that exists, and
  // what is being cleared is not added or deleted again; and the two exceptions shown above stay out.
  ghost predicate Lawful(s: State, acts: Acts, dying: set<Ptr>)
    requires Fits(s)
    decreases acts, 0
  {
    match acts
    case Nil => true
    case Cons(a, rest) => LawfulAct(s, a, dying) && Lawful(Do(s, a), rest, dying)
  }

  ghost predicate LawfulAct(s: State, a: Act, dying: set<Ptr>)
    requires Fits(s)
    decreases a, 1
  {
    match a
    case Create(p, _) => p !in s.mem
    case Discard(p) => p in s.mem && p !in dying && s.mem[p].index < 0
    case Insert(p, _, _) => p in s.mem && p !in dying && (s.checkDup || !Listed(s, p) || s.count >= |s.slots|)
    case Change(p, _) => p in s.mem
    case Remove(p, clear) =>
      p in s.mem && p !in dying && (Listed(s, p) || s.mem[p].fd !in s.index) && Lawful(Unlisted(s, p), clear, dying + {p})
  }

  // Array and hash agree after every run of the operations, however deeply clear callbacks nest.
  lemma {:induction false} PerformAgrees(s: State, acts: Acts, dying: set<Ptr>)
    requires Agree(s) && Fits(s) && Dying(s, dying) && Lawful(s, acts, dying)
    ensures Agree(Perform(s, acts)) && Dying(Perform(s, acts), dying)
    decreases acts, 0
  {
    hide Agree, Dying;
    match acts
    case Nil =>
    case Cons(a, rest) =>
      DoAgrees(s, a, dying);
      PerformAgrees(Do(s, a), rest, dying);
  }

  lemma {:induction false} DoAgrees(s: State, a: Act, dying: set<Ptr>)
    requires Agree(s) && Dying(s, dying) && Fits(s) && LawfulAct(s, a, dying)
    ensures Agree(Do(s, a)) && Dying(Do(s, a), dying)
    decreases a, 2
  {
    hide Agree, Unlisted, Perform;
    match a
    case Create(p, fd) => CreateAgrees(s, p, fd);
    case Discard(p) => FreedAgrees(s, p);
    case Insert(p, events, hashOk) => AddAgrees(s, p, events, hashOk);
    case Change(p, events) => ModifyAgrees(s, p, events);
    case Remove(p, clear) => RemoveAgrees(s, p, clear, dying);
  }

  lemma CreateAgrees(s: State, p: Ptr, fd: int)
    requires Agree(s) && p !in s.mem
    ensures Agree(s.(mem := s.mem[p := Item(fd, -1, 0)]))
  {
    var t := s.(mem := s.mem[p := Item(fd, -1, 0)]);
    forall i | 0 <= i < t.count ensures SlotAgrees(t, i) { assert SlotAgrees(s, i); }
    forall fd | fd in t.index ensures KeyAgrees(t, fd) { assert KeyAgrees(s, fd); }
    forall q | q in t.mem && t.mem[q].index >= 0 ensures Listed(t, q) { assert Listed(s, q); }
  }

  lemma UnlistedAgrees(s: State, p: Ptr, dying: set<Ptr>)
    requires Agree(s) && Dying(s, dying) && p in s.mem && (Listed(s, p) || s.mem[p].fd !in s.index)
    ensures Agree(Unlisted(s, p)) && Dying(Unlisted(s, p), dying + {p}) && Found(s, p) == p
  {
    if Listed(s, p) {
      DeleteAgrees(s, p);
      UnlistedFields(s, p);
      hide Agree, Unlisted;
    } else {
      DeleteUnlisted(s, p);
      assert s.mem[p].index < 0;
    }
  }

  lemma {:induction false} RemoveAgrees(s: State, p: Ptr, clear: Acts, dying: set<Ptr>)
    requires Agree(s) && Dying(s, dying) && Fits(s) && LawfulAct(s, Remove(p, clear), dying)
    ensures Agree(Delete(s, p, clear)) && Dying(Delete(s, p, clear), dying)
    decreases clear, 1
  {
    hide Agree, Unlisted, Perform, Lawful;
    UnlistedAgrees(s, p, dying);
    PerformAgrees(Unlisted(s, p), clear, dying + {p});
    var t := Perform(Unlisted(s, p), clear);
    assert p in dying + {p};
    FreedAgrees(t, p);
  }

  // ======================= the two exceptions =======================

  function New(max: nat, checkDup: bool): State { State(map[], map[], seq(max, _ => EMPTY), 0, checkDup, false) }

  // Two events made for one descriptor, of which only one is listed: deleting the other one takes
  // the hash entry of the first.
  lemma DeleteUnlistedBreaks(max: nat, p: Ptr, q: Ptr, fd: int, events: int)
    requires max > 0 && p != q && fd != INVALID
    ensures var acts := Cons(Create(p, fd), Cons(Insert(p, events, true), Cons(Create(q, fd), Cons(Remove(q, Nil), Nil))));
      Agree(New(max, true)) && !Agree(Perform(New(max, true), acts))
  {
    var s, acts := New(max, true), Cons(Create(q, fd), Cons(Remove(q, Nil), Nil));
    var t := Listing(s, p, fd, events, acts);
    var u := Do(t, Create(q, fd));
    CreateAgrees(t, q, fd);
    DeleteUnlisted(u, q);
    hide Agree, Delete;
    assert Perform(t, acts) == Perform(u, Cons(Remove(q, Nil), Nil));
    assert Perform(u, Cons(Remove(q, Nil), Nil)) == Perform(Delete(u, q, Nil), Nil);
  }

  // Adding an event again with the check for duplicates off.
  lemma AddAgainBreaks(max: nat, p: Ptr, fd: int, events: int)
    requires max > 1 && fd != INVALID
    ensures var acts := Cons(Create(p, fd), Cons(Insert(p, events, true), Cons(Insert(p, events, true), Nil)));
      Agree(New(max, false)) && !Agree(Perform(New(max, false), acts))
  {
    var s, acts := New(max, false), Cons(Insert(p, events, true), Nil);
    var t := Listing(s, p, fd, events, acts);
    AddAgrees(t, p, events, true);
    assert Perform(t, acts) == Add(t, p, events, true);
  }

  // A new engine with one event listed.
  lemma Listing(s: State, p: Ptr, fd: int, events: int, more: Acts) returns (t: State)
    requires s == New(|s.slots|, s.checkDup) && |s.slots| > 0 && fd != INVALID
    ensures Agree(s) && Agree(t) && Listed(t, p) && t.mem == map[p := Item(fd, 0, events)] && t.count == 1
    ensures |t.slots| == |s.slots| && t.checkDup == s.checkDup && t.index == map[fd := p]
    ensures Perform(s, Cons(Create(p, fd), Cons(Insert(p, events, true), more))) == Perform(t, more)
  {
    var made := Do(s, Create(p, fd));
    CreateAgrees(s, p, fd);
    AddAgrees(made, p, events, true);
    t := Add(made, p, events, true);
    hide Add;
    var insert := Cons(Insert(p, events, true), more);
    assert Perform(s, Cons(Create(p, fd), insert)) == Perform(made, insert);
    assert Perform(made, insert) == Perform(t, more);
  }
}
