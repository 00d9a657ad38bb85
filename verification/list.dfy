/**
 The doubly linked lists of src/data/list.c: nodes on the heap whose links are rewired in place.
 A chain is the sequence of the nodes of one list, from its head to its tail.
 */
module Lists {
  import opened Options

  class Node<T> {
    var next: Node?<T>
    var prev: Node?<T>
    var data: Option<T>     // pData
    const isAlloc: bool   // nIsAlloc

    constructor (data: Option<T>, isAlloc: bool)
      ensures this.data == data && this.isAlloc == isAlloc && next == null && prev == null
    {
      this.next, this.prev, this.data, this.isAlloc := null, null, data, isAlloc;
    }
  }

  ghost predicate Distinct<T>(chain: seq<Node<T>>) {
    forall i, j | 0 <= i < j < |chain| :: chain[i] != chain[j]
  }

  ghost function Nodes<T>(chain: seq<Node<T>>): set<Node<T>> { set n | n in chain }

  ghost function After<T>(chain: seq<Node<T>>, i: int): Node?<T> { if 0 <= i + 1 < |chain| then chain[i + 1] else null }
  ghost function Before<T>(chain: seq<Node<T>>, i: int): Node?<T> { if 0 < i <= |chain| then chain[i - 1] else null }

  // The links say what the chain says.
  ghost predicate Linked<T>(chain: seq<Node<T>>)
    reads Nodes(chain)
  {
    && Distinct(chain)
    && (forall i | 0 <= i < |chain| :: chain[i].next == After(chain, i) && chain[i].prev == Before(chain, i))
  }

  lemma Neighbours<T>(chain: seq<Node<T>>, i: nat)
    requires Linked(chain) && i < |chain|
    ensures chain[i] in Nodes(chain)
    ensures i + 1 < |chain| ==> chain[i].next == chain[i + 1] && chain[i + 1] in Nodes(chain)
    ensures i + 1 == |chain| ==> chain[i].next == null
    ensures i > 0 ==> chain[i].prev == chain[i - 1] && chain[i - 1] in Nodes(chain)
    ensures i == 0 ==> chain[i].prev == null
  {
  }

  ghost function Without<T>(chain: seq<T>, i: nat): (r: seq<T>)
    requires i < |chain|
    ensures |r| == |chain| - 1
  {
    chain[..i] + chain[i + 1..]
  }

  ghost function With<T>(chain: seq<T>, i: nat, n: T): (r: seq<T>)
    requires i <= |chain|
    ensures |r| == |chain| + 1
  {
    chain[..i] + [n] + chain[i..]
  }

  lemma WithoutAt<T>(chain: seq<T>, i: nat, k: nat)
    requires i < |chain| && k < |chain| - 1
    ensures Without(chain, i)[k] == if k < i then chain[k] else chain[k + 1]
  {
  }

  lemma WithAt<T>(chain: seq<T>, i: nat, n: T, k: nat)
    requires i <= |chain| && k <= |chain|
    ensures With(chain, i, n)[k] == if k < i then chain[k] else if k == i then n else chain[k - 1]
  {
  }

  lemma DistinctWith<T>(chain: seq<Node<T>>, p: nat, node: Node<T>)
    requires p <= |chain| && Distinct(chain) && node !in chain
    ensures Distinct(With(chain, p, node))
  {
    hide With;
    var w := With(chain, p, node);
    forall i, j | 0 <= i < j < |w| ensures w[i] != w[j] {
      WithAt(chain, p, node, i);
      WithAt(chain, p, node, j);
    }
  }

  lemma DistinctWithout<T>(chain: seq<Node<T>>, p: nat)
    requires p < |chain| && Distinct(chain)
    ensures Distinct(Without(chain, p)) && chain[p] !in Without(chain, p)
  {
    hide Without;
    var w := Without(chain, p);
    forall i, j | 0 <= i < j < |w| ensures w[i] != w[j] {
      WithoutAt(chain, p, i);
      WithoutAt(chain, p, j);
    }
    forall i | 0 <= i < |w| ensures w[i] != chain[p] { WithoutAt(chain, p, i); }
  }

  // The links around place p changed to let a new node in.
  lemma LetIn<T>(chain: seq<Node<T>>, p: nat, node: Node<T>)
    requires p <= |chain| && Distinct(chain) && node !in chain
    requires forall k | 0 <= k < |chain| :: chain[k].next == if k + 1 == p then node else After(chain, k)
    requires forall k | 0 <= k < |chain| :: chain[k].prev == if k == p then node else Before(chain, k)
    requires node.next == After(chain, p - 1) && node.prev == Before(chain, p)
    ensures Linked(With(chain, p, node))
  {
    DistinctWith(chain, p, node);
    hide With, Distinct;
    var w := With(chain, p, node);
    forall k | 0 <= k < |w| ensures w[k].next == After(w, k) && w[k].prev == Before(w, k) {
      WithAt(chain, p, node, k);
      if k + 1 < |w| { WithAt(chain, p, node, k + 1); }
      if k > 0 { WithAt(chain, p, node, k - 1); }
    }
  }

  // The links around place i changed to leave a node out.
  lemma LetOut<T>(chain: seq<Node<T>>, i: nat)
    requires i < |chain| && Distinct(chain)
    requires forall k | 0 <= k < |chain| && k != i :: chain[k].next == if k + 1 == i then After(chain, i) else After(chain, k)
    requires forall k | 0 <= k < |chain| && k != i :: chain[k].prev == if k == i + 1 then Before(chain, i) else Before(chain, k)
    ensures Linked(Without(chain, i)) && chain[i] !in Without(chain, i)
  {
    DistinctWithout(chain, i);
    hide Without, Distinct;
    var w := Without(chain, i);
    forall k | 0 <= k < |w| ensures w[k].next == After(w, k) && w[k].prev == Before(w, k) {
      WithoutAt(chain, i, k);
      if k + 1 < |w| { WithoutAt(chain, i, k + 1); }
      if k > 0 { WithoutAt(chain, i, k - 1); }
    }
  }

  method GetHead<T>(list: Node<T>, ghost chain: seq<Node<T>>, ghost i: nat) returns (head: Node<T>)
    requires Linked(chain) && i < |chain| && list == chain[i]
    ensures head == chain[0]
  {
    hide After, Before, Distinct;
    head := list;
    ghost var k := i;
    while head.prev != null
      invariant Linked(chain)
      invariant 0 <= k < |chain| && head == chain[k]
      decreases k
    {
      Neighbours(chain, k);
      head := head.prev;
      k := k - 1;
    }
    Neighbours(chain, k);
  }

  method GetTail<T>(list: Node<T>, ghost chain: seq<Node<T>>, ghost i: nat) returns (tail: Node<T>)
    requires Linked(chain) && i < |chain| && list == chain[i]
    ensures tail == chain[|chain| - 1]
  {
    hide After, Before, Distinct;
    tail := list;
    ghost var k := i;
    while tail.next != null
      invariant Linked(chain)
      invariant 0 <= k < |chain| && tail == chain[k]
      decreases |chain| - k
    {
      Neighbours(chain, k);
      tail := tail.next;
      k := k + 1;
    }
    Neighbours(chain, k);
  }

  method Detach<T>(list: Node<T>, ghost chain: seq<Node<T>>, ghost i: nat)
    requires Linked(chain) && i < |chain| && list == chain[i]
    modifies Nodes(chain)
    ensures Linked(Without(chain, i))
    ensures list.next == null && list.prev == null
    ensures forall n | n in chain :: n.data == old(n.data)
  {
    Neighbours(chain, i);
    var prev, next := list.prev, list.next;
    if prev != null { prev.next := next; }
    if next != null { next.prev := prev; }
    list.prev := null;
    list.next := null;
    LetOut(chain, i);
  }

  // XList_InsertNext; the result is the node after the new one, when there is one.
  method InsertNext<T>(list: Node<T>, node: Node<T>, ghost chain: seq<Node<T>>, ghost i: nat) returns (r: Node<T>)
    requires Linked(chain) && i < |chain| && list == chain[i] && node !in chain
    modifies Nodes(chain), node
    ensures Linked(With(chain, i + 1, node))
    ensures r == if i + 1 < |chain| then chain[i + 1] else node
    ensures node.data == old(node.data) && forall n | n in chain :: n.data == old(n.data)
  {
    Neighbours(chain, i);
    var next := list.next;
    list.next := node;
    node.next := next;
    node.prev := list;
    if next != null {
      next.prev := node;
    }
    LetIn(chain, i + 1, node);
    r := if next != null then next else node;
  }

  method InsertPrev<T>(list: Node<T>, node: Node<T>, ghost chain: seq<Node<T>>, ghost i: nat) returns (r: Node<T>)
    requires Linked(chain) && i < |chain| && list == chain[i] && node !in chain
    modifies Nodes(chain), node
    ensures Linked(With(chain, i, node))
    ensures r == if i > 0 then chain[i - 1] else node
    ensures node.data == old(node.data) && forall n | n in chain :: n.data == old(n.data)
  {
    Neighbours(chain, i);
    var prev := list.prev;
    list.prev := node;
    node.prev := prev;
    node.next := list;
    if prev != null {
      prev.next := node;
    }
    LetIn(chain, i, node);
    r := if prev != null then prev else node;
  }

  method InsertHead<T>(list: Node<T>, node: Node<T>, ghost chain: seq<Node<T>>, ghost i: nat) returns (r: Node<T>)
    requires Linked(chain) && i < |chain| && list == chain[i] && node !in chain
    modifies Nodes(chain), node
    ensures Linked(With(chain, 0, node)) && r == node
    ensures node.data == old(node.data) && forall n | n in chain :: n.data == old(n.data)
  {
    var head := GetHead(list, chain, i);
    assert head in Nodes(chain);
    head.prev := node;
    node.next := head;
    node.prev := null;
    LetIn(chain, 0, node);
    r := node;
  }

  method InsertTail<T>(list: Node<T>, node: Node<T>, ghost chain: seq<Node<T>>, ghost i: nat) returns (r: Node<T>)
    requires Linked(chain) && i < |chain| && list == chain[i] && node !in chain
    modifies Nodes(chain), node
    ensures Linked(With(chain, |chain|, node)) && r == node
    ensures node.data == old(node.data) && forall n | n in chain :: n.data == old(n.data)
  {
    var tail := GetTail(list, chain, i);
    ghost var m := |chain| - 1;
    Neighbours(chain, m);
    assert forall k | 0 <= k < m :: chain[k] != tail;
    assert tail in Nodes(chain);
    tail.next := node;
    node.prev := tail;
    node.next := null;
    LetIn(chain, |chain|, node);
    r := node;
  }

  // XList_Free of a detached node: what its clear callback is called with, if anything.
  method Free<T>(list: Node<T>) returns (cleared: Option<T>)
    modifies list
    ensures cleared == old(list.data)
    ensures list.data == if list.isAlloc then old(list.data) else None
    ensures !list.isAlloc ==> list.next == null && list.prev == null
  {
    cleared := list.data;
    if !list.isAlloc {
      list.data, list.next, list.prev := None, null, null;
    }
  }

  // XList_Unlink: the node after it, else the one before.
  method Unlink<T>(list: Node<T>, ghost chain: seq<Node<T>>, ghost i: nat) returns (r: Node?<T>, cleared: Option<T>)
    requires Linked(chain) && i < |chain| && list == chain[i]
    modifies Nodes(chain)
    ensures Linked(Without(chain, i))
    ensures r == if i + 1 < |chain| then chain[i + 1] else if i > 0 then chain[i - 1] else null
    ensures cleared == old(list.data)
    ensures forall n | n in chain && n != list :: n.data == old(n.data)
    ensures !list.isAlloc ==> list.data == None && list.next == null && list.prev == null
  {
    Neighbours(chain, i);
    var prev, next := list.prev, list.next;
    Detach(list, chain, i);
    assert forall k | 0 <= k < |Without(chain, i)| :: Without(chain, i)[k] != list;
    cleared := Free(list);
    r := if next != null then next else prev;
  }

  // ----- traversal -----

  ghost predicate Holds<T>(chain: seq<Node<T>>, datas: seq<Option<T>>)
    reads Nodes(chain)
  {
    |datas| == |chain| && forall i | 0 <= i < |chain| :: chain[i].data == datas[i]
  }

  lemma HoldsAt<T>(chain: seq<Node<T>>, datas: seq<Option<T>>)
    requires Holds(chain, datas)
    ensures |datas| == |chain| && forall i | 0 <= i < |chain| :: chain[i].data == datas[i]
  {
  }

  // Where a search ends: at the first node that does not compare as 0.
  ghost function Stop<T>(datas: seq<Option<T>>, compare: Option<T> -> int): (k: nat)
    ensures k <= |datas| && (k < |datas| ==> compare(datas[k]) != 0)
    ensures forall i | 0 <= i < k :: compare(datas[i]) == 0
  {
    if datas == [] then 0
    else if compare(datas[0]) != 0 then 0
    else 1 + Stop(datas[1..], compare)
  }

  lemma {:induction false} StopIs<T>(datas: seq<Option<T>>, compare: Option<T> -> int, k: nat)
    requires k <= |datas| && (k < |datas| ==> compare(datas[k]) != 0)
    requires forall i | 0 <= i < k :: compare(datas[i]) == 0
    ensures Stop(datas, compare) == k
  {
    if k > 0 { StopIs(datas[1..], compare, k - 1); }
  }

  // XList_Search goes back to the head first.
  method Search<T>(list: Node<T>, compare: Option<T> -> int, ghost chain: seq<Node<T>>, ghost i: nat, ghost datas: seq<Option<T>>)
    returns (r: Node?<T>)
    requires Linked(chain) && i < |chain| && list == chain[i] && Holds(chain, datas)
    ensures var k := Stop(datas, compare);
      r == if k < |chain| && compare(datas[k]) > 0 then chain[k] else null
  {
    hide Stop, Holds, After, Before, Distinct;
    HoldsAt(chain, datas);
    var head := GetHead(list, chain, i);
    var at: Node?<T> := head;
    ghost var k := 0;
    while at != null
      invariant Linked(chain) && |chain| == |datas| && forall m | 0 <= m < |chain| :: chain[m].data == datas[m]
      invariant 0 <= k <= |chain| && at == if k < |chain| then chain[k] else null
      invariant forall m | 0 <= m < k :: compare(datas[m]) == 0
      decreases |chain| - k
    {
      var ret := compare(at.data);
      if ret > 0 {
        StopIs(datas, compare, k);
        return at;
      } else if ret < 0 {
        StopIs(datas, compare, k);
        break;
      }
      Neighbours(chain, k);
      at := at.next;
      k := k + 1;
    }
    StopIs(datas, compare, k);
    r := null;
  }

  function Reverse<T>(s: seq<T>): (r: seq<T>)
    ensures |r| == |s|
  {
    if s == [] then [] else [s[|s| - 1]] + Reverse(s[..|s| - 1])
  }

  // The order in which XList_Clear, called on place i, gets rid of what the nodes hold: on to the
  // tail, then back from where it started.
  function ClearOrder<T>(datas: seq<T>, i: nat): (r: seq<T>)
    requires i < |datas|
    ensures |r| == |datas|
  {
    datas[i..] + Reverse(datas[..i])
  }

  lemma ClearOrderNext<T>(datas: seq<T>, i: nat)
    requires i < |datas| && |datas| > 1
    ensures ClearOrder(datas, i) == [datas[i]] + ClearOrder(Without(datas, i), if i + 1 < |datas| then i else i - 1)
  {
    var rest := Without(datas, i);
    if i + 1 < |datas| {
      assert rest[i..] == datas[i + 1..] && rest[..i] == datas[..i];
    } else {
      assert rest == datas[..i] && datas[i..] == [datas[i]];
      assert rest[i - 1..] == [datas[i - 1]];
    }
  }

  // So nothing is cleared twice and nothing is missed.
  lemma {:induction false} ReversePermutes<T>(s: seq<T>)
    ensures multiset(Reverse(s)) == multiset(s)
  {
    if s != [] {
      ReversePermutes(s[..|s| - 1]);
      assert s == s[..|s| - 1] + [s[|s| - 1]];
    }
  }

  lemma ClearOrderPermutes<T>(datas: seq<T>, i: nat)
    requires i < |datas|
    ensures multiset(ClearOrder(datas, i)) == multiset(datas)
  {
    ReversePermutes(datas[..i]);
    assert datas == datas[..i] + datas[i..];
  }

  lemma HoldsWithout<T>(chain: seq<Node<T>>, datas: seq<Option<T>>, i: nat)
    requires i < |chain| == |datas| && forall k | 0 <= k < |chain| && k != i :: chain[k].data == datas[k]
    ensures Holds(Without(chain, i), Without(datas, i))
  {
  }

  lemma ClearOrderLast<T>(datas: seq<T>)
    requires |datas| == 1
    ensures ClearOrder(datas, 0) == datas
  {
  }

  lemma MembersWithout<T>(chain: seq<Node<T>>, i: nat)
    requires i < |chain| && Distinct(chain)
    ensures forall n :: n in Without(chain, i) <==> n in chain && n != chain[i]
  {
    DistinctWithout(chain, i);
    forall n | n in chain && n != chain[i] ensures n in Without(chain, i) {
      var k :| 0 <= k < |chain| && chain[k] == n;
      WithoutAt(chain, i, if k < i then k else k - 1);
    }
  }

  // The nodes of the chain that are not in the rest are as freshly initialised, unless freed.
  ghost predicate Reset<T>(chain: seq<Node<T>>, rest: seq<Node<T>>)
    reads Nodes(chain)
  {
    forall n | n in chain && n !in rest && !n.isAlloc :: n.data == None && n.next == null && n.prev == null
  }

  lemma SubsetWithout<T>(chain: seq<Node<T>>, i: nat)
    requires i < |chain|
    ensures Nodes(Without(chain, i)) <= Nodes(chain)
  {
    hide Without;
    forall n | n in Without(chain, i) ensures n in chain {
      var k :| 0 <= k < |chain| - 1 && Without(chain, i)[k] == n;
      WithoutAt(chain, i, k);
    }
  }

  // The loop of XList_Clear underway: the rest of the chain, what it holds, and where the loop is.
  ghost predicate Clearing<T>(chain: seq<Node<T>>, c: seq<Node<T>>, d: seq<Option<T>>, m: nat, at: Node?<T>)
    reads Nodes(chain), Nodes(c)
  {
    && Linked(c) && Holds(c, d) && |d| == |c|
    && Reset(chain, c) && Nodes(c) <= Nodes(chain)
    && (m < |c| || c == []) && at == (if m < |c| then c[m] else null)
  }

  function NextPlace(n: nat, m: nat): nat { if m + 1 < n then m else if m > 0 then m - 1 else 0 }

  method ClearOne<T>(list: Node<T>, ghost chain: seq<Node<T>>, ghost c: seq<Node<T>>, ghost m: nat, ghost d: seq<Option<T>>)
    returns (r: Node?<T>, gone: Option<T>)
    requires Clearing(chain, c, d, m, list)
    modifies Nodes(chain)
    ensures m < |c| && m < |d| && gone == d[m]
    ensures Clearing(chain, Without(c, m), Without(d, m), NextPlace(|c|, m), r)
  {
    hide Without, After, Before, Distinct;
    LinkedDistinct(c);
    MembersWithout(c, m);
    if |c| > 1 { WithoutAt(c, m, NextPlace(|c|, m)); }
    r, gone := Unlink(list, c, m);
    HoldsWithout(c, d, m);
    ghost var w := Without(c, m);
    assert Linked(w);
    assert Holds(w, Without(d, m));
    SubsetWithout(c, m);
    assert r == (if NextPlace(|c|, m) < |w| then w[NextPlace(|c|, m)] else null);
    forall n | n in chain && n !in w && !n.isAlloc ensures n.data == None && n.next == null && n.prev == null {
      if n in c { assert n == list; } else { assert n !in Nodes(c); }
    }
  }

  method Clear<T>(list: Node<T>, ghost chain: seq<Node<T>>, ghost i: nat, ghost datas: seq<Option<T>>)
    returns (cleared: seq<Option<T>>)
    requires Linked(chain) && i < |chain| && list == chain[i] && Holds(chain, datas)
    modifies Nodes(chain)
    ensures cleared == ClearOrder(datas, i) && Reset(chain, [])
  {
    hide *;
    ClearingStarts(chain, datas, i);
    cleared := [];
    var at: Node?<T> := list;
    ghost var c, d := chain, datas;
    ghost var m: nat := i;
    ghost var rest := ClearOrder(datas, i);
    assert cleared + rest == rest;
    while at != null
      invariant Clearing(chain, c, d, m, at)
      invariant cleared + rest == ClearOrder(datas, i)
      invariant (m < |d| && rest == ClearOrder(d, m)) || (d == [] && rest == [])
      decreases |d|
    {
      ClearingSome(chain, c, d, m, at);
      ClearOrderStep(d, m);
      var gone;
      at, gone := ClearOne(at, chain, c, m, d);
      assert cleared + rest == (cleared + [gone]) + rest[1..];
      cleared := cleared + [gone];
      rest := rest[1..];
      c, d, m := Without(c, m), Without(d, m), NextPlace(|c|, m);
    }
    ClearingNone(chain, c, d, m);
    assert cleared + [] == cleared;
  }

  lemma ClearingStarts<T>(chain: seq<Node<T>>, datas: seq<Option<T>>, i: nat)
    requires Linked(chain) && i < |chain| && Holds(chain, datas)
    ensures Clearing(chain, chain, datas, i, chain[i]) && |datas| == |chain|
  {
    hide Linked;
  }

  lemma ClearingSome<T>(chain: seq<Node<T>>, c: seq<Node<T>>, d: seq<Option<T>>, m: nat, at: Node<T>)
    requires Clearing(chain, c, d, m, at)
    ensures m < |d| == |c|
  {
  }

  lemma ClearingNone<T>(chain: seq<Node<T>>, c: seq<Node<T>>, d: seq<Option<T>>, m: nat)
    requires Clearing(chain, c, d, m, null)
    ensures d == [] && Reset(chain, [])
  {
  }

  lemma ClearOrderStep<T>(datas: seq<T>, i: nat)
    requires i < |datas|
    ensures var rest := Without(datas, i);
      var order := ClearOrder(datas, i);
      |order| > 0 && order[0] == datas[i] &&
      if rest == [] then order[1..] == []
      else NextPlace(|datas|, i) < |rest| && order[1..] == ClearOrder(rest, NextPlace(|datas|, i))
  {
    if |datas| > 1 { ClearOrderNext(datas, i); } else { ClearOrderLast(datas); }
  }

  lemma LinkedDistinct<T>(chain: seq<Node<T>>)
    requires Linked(chain)
    ensures Distinct(chain)
  {
  }
}
