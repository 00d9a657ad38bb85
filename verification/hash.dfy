/**
 The chained hash of src/data/hash.c as it runs: thirty-two heap lists, each behind a sentinel
 that holds no pair, and a count. Every operation does to the lists what the function of HashModel
 of its name does to the buckets.
 */
module Hashes {
  import opened Options
  import opened Lists
  import opened HashModel

  // What the nodes of a table hold: nothing in the sentinel, then the pairs of the bucket.
  function Datas<V>(bucket: seq<Pair<V>>): (r: seq<Option<Pair<V>>>)
    ensures |r| == |bucket| + 1 && r[0] == None
    ensures forall k | 0 < k < |r| :: r[k] == Some(bucket[k - 1])
  {
    [None] + seq(|bucket|, k requires 0 <= k < |bucket| => Some(bucket[k]))
  }

  ghost predicate TableOk<V>(sentinel: Node<Pair<V>>, chain: seq<Node<Pair<V>>>, bucket: seq<Pair<V>>)
    reads Nodes(chain)
  {
    |chain| > 0 && chain[0] == sentinel && !sentinel.isAlloc && Linked(chain) && Holds(chain, Datas(bucket))
  }

  // XHash_SearchCb
  function KeyIs<V>(key: int, d: Option<Pair<V>>): int {
    if d.Some? && d.value.key == key then 1 else 0
  }

  lemma SearchFinds<V>(bucket: seq<Pair<V>>, key: int)
    ensures Stop(Datas(bucket), (d: Option<Pair<V>>) => KeyIs(key, d)) == IndexOf(bucket, key) + 1
  {
    var i := IndexOf(bucket, key);
    var compare := (d: Option<Pair<V>>) => KeyIs(key, d);
    StopIs(Datas(bucket), compare, i + 1);
  }

  // The pairs a visitor sees before and when it returns something other than 0.
  function Visited<V>(pairs: seq<Pair<V>>, f: Pair<V> -> int): seq<Pair<V>> {
    if pairs == [] then []
    else if f(pairs[0]) != 0 then [pairs[0]]
    else [pairs[0]] + Visited(pairs[1..], f)
  }

  // No node is in two tables.
  ghost predicate Apart<V>(chains: seq<seq<Node<Pair<V>>>>) {
    forall b, c | 0 <= b < |chains| && 0 <= c < |chains| && b != c :: Nodes(chains[b]) !! Nodes(chains[c])
  }

  // The iterator's status in the end: what the visitor returned last.
  function LastStatus<V>(pairs: seq<Pair<V>>, f: Pair<V> -> int): int {
    if pairs == [] then 0 else if f(pairs[0]) != 0 then f(pairs[0]) else LastStatus(pairs[1..], f)
  }

  // A visitor that never stops sees everything.
  lemma {:induction false} VisitedAll<V>(pairs: seq<Pair<V>>, f: Pair<V> -> int)
    requires forall p | p in pairs :: f(p) == 0
    ensures Visited(pairs, f) == pairs && LastStatus(pairs, f) == 0
  {
    if pairs != [] {
      assert pairs[0] in pairs;
      VisitedAll(pairs[1..], f);
      assert pairs == [pairs[0]] + pairs[1..];
    }
  }

  lemma {:induction false} VisitedAppend<V>(a: seq<Pair<V>>, b: seq<Pair<V>>, f: Pair<V> -> int)
    ensures LastStatus(a, f) == 0 ==> Visited(a, f) == a && Visited(a + b, f) == a + Visited(b, f)
    ensures LastStatus(a, f) != 0 ==> Visited(a + b, f) == Visited(a, f)
    ensures LastStatus(a + b, f) == if LastStatus(a, f) == 0 then LastStatus(b, f) else LastStatus(a, f)
  {
    hide Visited, LastStatus;
    if a == [] {
      VisitedNone(f);
      assert a + b == b && a + Visited(b, f) == Visited(b, f);
    } else {
      VisitedAppend(a[1..], b, f);
      Unfolds(a, f);
      Unfolds(a + b, f);
      assert (a + b)[1..] == a[1..] + b && (a + b)[0] == a[0];
      if f(a[0]) == 0 && LastStatus(a[1..], f) == 0 {
        assert a == [a[0]] + a[1..];
        assert a + Visited(b, f) == [a[0]] + (a[1..] + Visited(b, f));
      }
    }
  }

  lemma Unfolds<V>(pairs: seq<Pair<V>>, f: Pair<V> -> int)
    requires pairs != []
    ensures Visited(pairs, f) == if f(pairs[0]) != 0 then [pairs[0]] else [pairs[0]] + Visited(pairs[1..], f)
    ensures LastStatus(pairs, f) == if f(pairs[0]) != 0 then f(pairs[0]) else LastStatus(pairs[1..], f)
  {
  }

  class Hash<V> {
    const tables: array<Node<Pair<V>>>
    var pairCount: nat
    var hasClear: bool
    ghost var chains: seq<seq<Node<Pair<V>>>>
    ghost var buckets: seq<seq<Pair<V>>>
    ghost var cleared: seq<Pair<V>>         // what the clear callback was called with

    ghost predicate Valid()
      reads this, tables, Repr()
    {
      && tables.Length == |chains| == |buckets| == MODULES
      && (forall b | 0 <= b < MODULES :: TableOk(tables[b], chains[b], buckets[b]))
      && Apart(chains)
      && Ok(buckets) && pairCount == |All(buckets)|
    }

    ghost function Repr(): set<Node<Pair<V>>>
      reads this
    {
      set b, n | 0 <= b < |chains| && n in chains[b] :: n
    }

    constructor (hasClear: bool)
      ensures Valid() && pairCount == 0 && (forall b | 0 <= b < MODULES :: buckets[b] == [])
      ensures fresh(tables) && fresh(Repr()) && this.hasClear == hasClear && cleared == []
    {
      hide Linked, Holds, TableOk, Ok, All;
      var nodes := Sentinels();
      this.pairCount, this.hasClear, this.cleared := 0, hasClear, [];
      this.tables := nodes;
      this.chains := seq(MODULES, b requires 0 <= b < MODULES reads nodes => [nodes[b]]);
      this.buckets := seq(MODULES, _ => []);
      new;
      EmptyAgrees(buckets);
      forall b | 0 <= b < MODULES ensures TableOk(tables[b], chains[b], buckets[b]) { SentinelOk(tables[b]); }
    }

    method GetNode(key: int) returns (r: Node?<Pair<V>>)
      requires Valid()
      ensures var b := Mix(key);
        var i := IndexOf(buckets[b], key) + 1;
        Valid() && |chains[b]| == |buckets[b]| + 1 && r == (if i < |chains[b]| then chains[b][i] else null)
    {
      hide Mix, Ok, All, Linked, Holds, Apart, Stop;
      var b := Mix(key);
      assert TableOk(tables[b], chains[b], buckets[b]);
      SearchFinds(buckets[b], key);
      HoldsAt(chains[b], Datas(buckets[b]));
      hide TableOk;
      r := Search(tables[b], (d: Option<Pair<V>>) => KeyIs(key, d), chains[b], 0, Datas(buckets[b]));
      forall c | 0 <= c < MODULES ensures TableOk(tables[c], chains[c], buckets[c]) {
        assert old(TableOk(tables[c], chains[c], buckets[c]));
        assert forall n | n in Nodes(chains[c]) :: unchanged(n);
      }
    }

    // What is known of one table.
    lemma TableAt(b: nat)
      requires Valid() && b < MODULES
      ensures TableOk(tables[b], chains[b], buckets[b]) && |chains[b]| == |buckets[b]| + 1 && Linked(chains[b])
      ensures chains[b][0] == tables[b] && !tables[b].isAlloc
      ensures forall k | 0 <= k < |chains[b]| :: chains[b][k].data == Datas(buckets[b])[k]
    {
      hide Ok, All, Linked, Apart, Datas;
    }

    method GetData(key: int) returns (r: Option<V>)
      requires Valid()
      ensures r == Lookup(buckets, key)
    {
      hide Mix, TableOk, Ok, All, Apart, Linked, Holds, Datas;
      ghost var b := Mix(key);
      ghost var i := IndexOf(buckets[b], key) + 1;
      TableAt(b);
      assert i < |chains[b]| ==> chains[b][i].data == Some(buckets[b][i - 1]);
      var node := GetNode(key);
      if node == null { return None; }
      r := Some(node.data.value.value);
    }

    // A pair goes right behind the sentinel, unless its key is there.
    method Insert(value: V, key: int) returns (ok: bool)
      requires Valid()
      modifies this, Nodes(chains[Mix(key)])
      ensures Valid() && forall n | n in Repr() :: n in old(Repr()) || fresh(n)
      ensures buckets == HashModel.Insert(old(buckets), Pair(value, key))
      ensures ok <==> Lookup(old(buckets), key) == None
      ensures hasClear == old(hasClear) && cleared == old(cleared)
    {
      hide Mix, Ok, All, Linked, Holds, Apart, With, TableOk, Datas;
      InsertOk(buckets, Pair(value, key));
      ghost var b := Mix(key);
      TableAt(b);
      var found := GetNode(key);
      if found != null {
        return false;
      }
      var node := new Node<Pair<V>>(Some(Pair(value, key)), true);
      assert node !in chains[b];
      ghost var was, pairs := chains, buckets;
      var r := InsertNext(tables[Mix(key)], node, chains[b], 0);
      PushedTable(tables[b], was[b], node, pairs[b], Pair(value, key));
      label pushed:
      chains := chains[b := With(chains[b], 1, node)];
      buckets := buckets[b := [Pair(value, key)] + buckets[b]];
      pairCount := pairCount + 1;
      ok := true;
      assert old@pushed(TableOk(tables[b], With(was[b], 1, node), [Pair(value, key)] + pairs[b]));
      assert forall n | n in Nodes(chains[b]) :: unchanged@pushed(n);
      PushedApart(was, b, node);
      forall c | 0 <= c < MODULES && c != b ensures TableOk(tables[c], chains[c], buckets[c]) {
        assert old(TableOk(tables[c], chains[c], buckets[c]));
        ApartAt(was, b, c);
        assert forall n | n in Nodes(chains[c]) :: unchanged(n);
      }
      forall n | n in Repr() ensures n in old(Repr()) || fresh(n) {
        var c :| 0 <= c < |chains| && n in chains[c];
        if c != b { assert n in old(chains[c]); }
      }
    }

    method Delete(key: int) returns (ok: bool)
      requires Valid()
      modifies this, Nodes(chains[Mix(key)])
      ensures Valid() && Repr() <= old(Repr())
      ensures buckets == HashModel.Delete(old(buckets), key)
      ensures ok <==> Lookup(old(buckets), key).Some?
      ensures hasClear == old(hasClear)
      ensures cleared == old(cleared) + (if ok && hasClear then [Pair(Lookup(old(buckets), key).value, key)] else [])
    {
      hide Mix, Ok, All, Linked, Holds, Apart, Without, TableOk, Datas, Removed;
      DeleteOk(buckets, key);
      ghost var b := Mix(key);
      ghost var i := IndexOf(buckets[b], key) + 1;
      TableAt(b);
      var node := GetNode(key);
      if node == null { return false; }
      ghost var was, pairs := chains, buckets;
      var gone := Drop(node, tables[b], chains[b], buckets[b], i);
      label unlinked:
      chains := chains[b := Without(chains[b], i)];
      buckets := buckets[b := Removed(buckets[b], i - 1)];
      if hasClear && gone.Some? { cleared := cleared + [gone.value]; }
      if pairCount > 0 { pairCount := pairCount - 1; }
      ok := true;
      assert old@unlinked(TableOk(tables[b], Without(was[b], i), Removed(pairs[b], i - 1)));
      assert forall n | n in Nodes(chains[b]) :: unchanged@unlinked(n);
      SubsetWithout(was[b], i);
      RemovedApart(was, b, i);
      forall c | 0 <= c < MODULES && c != b ensures TableOk(tables[c], chains[c], buckets[c]) {
        assert old(TableOk(tables[c], chains[c], buckets[c]));
        ApartAt(was, b, c);
        assert forall n | n in Nodes(chains[c]) :: unchanged(n);
      }
      forall n | n in Repr() ensures n in old(Repr()) {
        var c :| 0 <= c < |chains| && n in chains[c];
        if c == b { assert n in Nodes(was[b]); }
      }
    }

    // Bucket by bucket, until the visitor returns something other than 0.
    method Iterate(f: Pair<V> -> int) returns (status: int, ghost visited: seq<Pair<V>>)
      requires Valid()
      ensures visited == Visited(All(buckets), f) && status == LastStatus(All(buckets), f)
    {
      hide Ok, All, Linked, Holds, Apart, TableOk, Visited, LastStatus;
      status, visited := 0, [];
      AllStarts(buckets, f);
      var i := 0;
      while i < MODULES
        invariant 0 <= i <= MODULES && |buckets| == |chains| == tables.Length == MODULES
        invariant forall b | 0 <= b < MODULES :: TableOk(tables[b], chains[b], buckets[b])
        invariant status == 0 && LastStatus(All(buckets[..i]), f) == 0 && visited == Visited(All(buckets[..i]), f)
      {
        AllNext(buckets, i);
        VisitedAppend(All(buckets[..i]), buckets[i], f);
        ghost var seen;
        status, seen := Walk(tables[i], f, chains[i], buckets[i]);
        forall b | 0 <= b < MODULES ensures TableOk(tables[b], chains[b], buckets[b]) {
          assert old(TableOk(tables[b], chains[b], buckets[b]));
          assert forall n | n in Nodes(chains[b]) :: unchanged(n);
        }
        visited := visited + seen;
        if status != 0 {
          VisitedEnough(buckets, i + 1, f);
          return;
        }
        i := i + 1;
      }
      assert buckets[..i] == buckets;
    }

    // XList_Clear of every table; the sentinels are initialised again.
    method ClearTables()
      requires Valid()
      modifies this`cleared, Repr()
      ensures forall b | 0 <= b < MODULES :: Bare(tables[b])
      ensures cleared == old(cleared) + (if hasClear then All(buckets) else [])
    {
      hide Ok, All, Linked, Holds, TableOk, ClearOrder, Datas;
      ghost var log: seq<Pair<V>> := [];
      AllNothing(buckets);
      forall b | 0 <= b < MODULES ensures |chains[b]| > 0 && chains[b][0] == tables[b] { TableAt(b); }
      for i := 0 to MODULES
        invariant forall b | 0 <= b < i :: Bare(tables[b])
        invariant forall b | i <= b < MODULES :: TableOk(tables[b], chains[b], buckets[b])
        invariant log == All(buckets[..i]) && cleared == old(cleared) + (if hasClear then log else [])
      {
        AllNext(buckets, i);
        var gone := ClearTable(tables[i], chains[i], buckets[i]);
        if hasClear { cleared := cleared + gone; }
        log := log + gone;
        forall b | 0 <= b < i ensures Bare(tables[b]) {
          ApartAt(chains, i, b);
          assert chains[b][0] in Nodes(chains[b]);
        }
        forall b | i < b < MODULES ensures TableOk(tables[b], chains[b], buckets[b]) { ApartAt(chains, i, b); }
      }
      assert buckets[..MODULES] == buckets;
    }

    method Destroy()
      requires Valid()
      modifies this, Repr()
      ensures Valid() && pairCount == 0 && !hasClear
      ensures forall b | 0 <= b < MODULES :: buckets[b] == [] && chains[b] == [tables[b]]
      ensures cleared == old(cleared) + (if old(hasClear) then All(old(buckets)) else [])
    {
      hide Ok, All, Linked, Holds, TableOk, Datas;
      forall b, c | 0 <= b < MODULES && 0 <= c < MODULES && b != c ensures tables[b] != tables[c] {
        TableAt(b);
        TableAt(c);
        ApartAt(chains, b, c);
        assert chains[b][0] in Nodes(chains[b]) && chains[c][0] in Nodes(chains[c]);
      }
      ClearTables();
      hasClear, pairCount := false, 0;
      chains := seq(MODULES, b requires 0 <= b < MODULES reads tables => [tables[b]]);
      buckets := seq(MODULES, _ => []);
      EmptyAgrees(buckets);
      forall b | 0 <= b < MODULES ensures TableOk(tables[b], chains[b], buckets[b]) { SentinelOk(tables[b]); }
    }
  }

  function Somes<T>(datas: seq<Option<T>>): seq<T> {
    if datas == [] then [] else (if datas[0].Some? then [datas[0].value] else []) + Somes(datas[1..])
  }

  // XList_Clear of a table, and what the clear callback is called with.
  method ClearTable<V>(sentinel: Node<Pair<V>>, ghost chain: seq<Node<Pair<V>>>, ghost bucket: seq<Pair<V>>) returns (gone: seq<Pair<V>>)
    requires TableOk(sentinel, chain, bucket)
    modifies Nodes(chain)
    ensures gone == bucket && Bare(sentinel)
  {
    hide Linked, Holds, Datas, ClearOrder;
    var cleared := Clear(sentinel, chain, 0, Datas(bucket));
    SomesOfDatas(bucket);
    gone := Somes(cleared);
    assert sentinel in chain;
  }

  lemma SomesOfDatas<V>(bucket: seq<Pair<V>>)
    ensures ClearOrder(Datas(bucket), 0) == Datas(bucket) && Somes(Datas(bucket)) == bucket
  {
    var d := Datas(bucket);
    assert d[0..] == d && d[..0] == [];
    SomesOf(d[1..], bucket);
  }

  lemma {:induction false} SomesOf<T>(datas: seq<Option<T>>, values: seq<T>)
    requires |datas| == |values| && forall k | 0 <= k < |datas| :: datas[k] == Some(values[k])
    ensures Somes(datas) == values
  {
    if datas != [] {
      SomesOf(datas[1..], values[1..]);
      assert values == [values[0]] + values[1..];
    }
  }

  lemma AllNothing<V>(buckets: seq<seq<Pair<V>>>)
    ensures All(buckets[..0]) == []
  {
  }

  // XList_Init of each table.
  method Sentinels<V>() returns (tables: array<Node<Pair<V>>>)
    ensures fresh(tables) && tables.Length == MODULES
    ensures forall b | 0 <= b < MODULES :: fresh(tables[b]) && Bare(tables[b])
    ensures forall b, c | 0 <= b < c < MODULES :: tables[b] != tables[c]
  {
    var first := new Node<Pair<V>>(None, false);
    tables := new Node<Pair<V>>[MODULES](_ => first);
    for i := 0 to MODULES
      invariant forall b | 0 <= b < i :: fresh(tables[b]) && Bare(tables[b])
      invariant forall b, c | 0 <= b < c < i :: tables[b] != tables[c]
    {
      var node := new Node<Pair<V>>(None, false);
      tables[i] := node;
    }
  }

  ghost predicate Bare<V>(node: Node<Pair<V>>)
    reads node
  {
    node.data == None && !node.isAlloc && node.next == null && node.prev == null
  }

  lemma SentinelOk<V>(node: Node<Pair<V>>)
    requires Bare(node)
    ensures TableOk(node, [node], [])
  {
  }

  lemma ApartAt<V>(chains: seq<seq<Node<Pair<V>>>>, b: nat, c: nat)
    requires Apart(chains) && b < |chains| && c < |chains| && b != c
    ensures Nodes(chains[b]) !! Nodes(chains[c])
  {
  }

  lemma PushedApart<V>(chains: seq<seq<Node<Pair<V>>>>, b: nat, node: Node<Pair<V>>)
    requires Apart(chains) && b < |chains| && |chains[b]| > 0 && forall c | 0 <= c < |chains| :: node !in chains[c]
    ensures Apart(chains[b := With(chains[b], 1, node)])
    ensures forall n | n in With(chains[b], 1, node) :: n in chains[b] || n == node
  {
    forall n | n in With(chains[b], 1, node) ensures n in chains[b] || n == node {
      var k :| 0 <= k <= |chains[b]| && With(chains[b], 1, node)[k] == n;
      WithAt(chains[b], 1, node, k);
    }
  }

  lemma PushedTable<V>(sentinel: Node<Pair<V>>, chain: seq<Node<Pair<V>>>, node: Node<Pair<V>>, bucket: seq<Pair<V>>, pair: Pair<V>)
    requires |chain| == |bucket| + 1 && chain[0] == sentinel && !sentinel.isAlloc
    requires forall k | 0 <= k < |chain| :: chain[k].data == Datas(bucket)[k]
    requires node.data == Some(pair) && Linked(With(chain, 1, node))
    ensures TableOk(sentinel, With(chain, 1, node), [pair] + bucket)
  {
    hide Linked;
  }

  // XList_Search of a table with XHash_IteratorCb.
  method Walk<V>(sentinel: Node<Pair<V>>, f: Pair<V> -> int, ghost chain: seq<Node<Pair<V>>>, ghost bucket: seq<Pair<V>>)
    returns (status: int, ghost visited: seq<Pair<V>>)
    requires TableOk(sentinel, chain, bucket)
    ensures visited == Visited(bucket, f) && status == LastStatus(bucket, f)
  {
    hide After, Before, Distinct, Datas, Visited, LastStatus;
    HoldsAt(chain, Datas(bucket));
    VisitedNone(f);
    hide Holds;
    var head := GetHead(sentinel, chain, 0);
    var at: Node?<Pair<V>> := head;
    ghost var k := 0;
    status, visited := 0, [];
    while at != null
      invariant Linked(chain) && |chain| == |bucket| + 1 && forall m | 0 <= m < |chain| :: chain[m].data == Datas(bucket)[m]
      invariant 0 <= k <= |chain| && at == if k < |chain| then chain[k] else null
      invariant visited == (if k == 0 then [] else bucket[..k - 1]) && Visited(visited, f) == visited
      invariant status == 0 && LastStatus(visited, f) == 0
      decreases |chain| - k
    {
      Neighbours(chain, k);
      if at.data.Some? {
        ghost var pair := at.data.value;
        assert pair == bucket[k - 1];
        VisitedNext(bucket, k - 1, f);
        status := f(at.data.value);
        visited := visited + [pair];
        if status != 0 { return; }
      }
      at := at.next;
      k := k + 1;
    }
    assert bucket[..k - 1] == bucket;
  }

  lemma VisitedNone<V>(f: Pair<V> -> int)
    ensures Visited<V>([], f) == [] && LastStatus<V>([], f) == 0
  {
  }

  lemma VisitedNext<V>(bucket: seq<Pair<V>>, k: nat, f: Pair<V> -> int)
    requires k < |bucket| && LastStatus(bucket[..k], f) == 0
    ensures bucket[..k + 1] == bucket[..k] + [bucket[k]]
    ensures Visited(bucket[..k + 1], f) == bucket[..k + 1] && LastStatus(bucket[..k + 1], f) == f(bucket[k])
    ensures f(bucket[k]) != 0 ==> Visited(bucket, f) == bucket[..k + 1] && LastStatus(bucket, f) == f(bucket[k])
  {
    Unfolds([bucket[k]], f);
    assert [bucket[k]][1..] == [];
    hide Visited, LastStatus;
    VisitedAppend(bucket[..k], [bucket[k]], f);
    VisitedAppend(bucket[..k + 1], bucket[k + 1..], f);
    assert bucket[..k + 1] == bucket[..k] + [bucket[k]];
    assert bucket == bucket[..k + 1] + bucket[k + 1..];
    VisitedNone(f);
  }

  lemma AllStarts<V>(buckets: seq<seq<Pair<V>>>, f: Pair<V> -> int)
    ensures All(buckets[..0]) == [] && Visited(All(buckets[..0]), f) == [] && LastStatus(All(buckets[..0]), f) == 0
  {
  }

  lemma AllNext<V>(buckets: seq<seq<Pair<V>>>, i: nat)
    requires i < |buckets|
    ensures All(buckets[..i + 1]) == All(buckets[..i]) + buckets[i]
  {
    assert buckets[..i + 1][..i] == buckets[..i];
  }

  lemma {:induction false} AllFront<V>(buckets: seq<seq<Pair<V>>>, i: nat)
    requires i <= |buckets|
    ensures All(buckets[..i]) <= All(buckets)
    decreases |buckets|
  {
    if i < |buckets| {
      AllFront(buckets[..|buckets| - 1], i);
      assert buckets[..|buckets| - 1][..i] == buckets[..i];
    } else {
      assert buckets[..i] == buckets;
    }
  }

  // What comes after the end of an iteration does not count.
  lemma VisitedEnough<V>(buckets: seq<seq<Pair<V>>>, i: nat, f: Pair<V> -> int)
    requires i <= |buckets| && LastStatus(All(buckets[..i]), f) != 0
    ensures Visited(All(buckets), f) == Visited(All(buckets[..i]), f)
    ensures LastStatus(All(buckets), f) == LastStatus(All(buckets[..i]), f)
  {
    hide All, Visited, LastStatus;
    AllFront(buckets, i);
    var front, all := All(buckets[..i]), All(buckets);
    assert all == front + all[|front|..];
    VisitedAppend(front, all[|front|..], f);
  }

  // XList_Unlink of a pair's node.
  method Drop<V>(node: Node<Pair<V>>, ghost sentinel: Node<Pair<V>>, ghost chain: seq<Node<Pair<V>>>, ghost bucket: seq<Pair<V>>, ghost i: nat)
    returns (gone: Option<Pair<V>>)
    requires TableOk(sentinel, chain, bucket) && 0 < i < |chain| == |bucket| + 1 && node == chain[i]
    modifies Nodes(chain)
    ensures TableOk(sentinel, Without(chain, i), Removed(bucket, i - 1)) && gone == Some(bucket[i - 1])
  {
    hide Without, Removed, Datas, After, Before;
    LinkedDistinct(chain);
    assert forall k | 0 <= k < |chain| && k != i :: chain[k] != node;
    hide Distinct;
    var r;
    r, gone := Unlink(node, chain, i);
    RemovedTable(sentinel, chain, bucket, i);
  }

  lemma RemovedTable<V>(sentinel: Node<Pair<V>>, chain: seq<Node<Pair<V>>>, bucket: seq<Pair<V>>, i: nat)
    requires |chain| == |bucket| + 1 && chain[0] == sentinel && !sentinel.isAlloc && 0 < i < |chain|
    requires forall k | 0 <= k < |chain| && k != i :: chain[k].data == Datas(bucket)[k]
    requires Linked(Without(chain, i))
    ensures TableOk(sentinel, Without(chain, i), Removed(bucket, i - 1))
  {
    hide Linked;
  }

  lemma RemovedApart<V>(chains: seq<seq<Node<Pair<V>>>>, b: nat, i: nat)
    requires Apart(chains) && b < |chains| && i < |chains[b]|
    ensures Apart(chains[b := Without(chains[b], i)])
  {
    SubsetWithout(chains[b], i);
  }
}
