/**
 src/data/map.c as it runs: an array of slots with probe loops, counters kept in step, growth
 and rehashing into freshly allocated tables.
 */
module HashMap {
  import opened MapTable

  // (index + 1) % size, as the probe loops step.
  lemma NextIndex(n: nat, start: nat, i: nat)
    requires start < n && i < n
    ensures (At(n, start, i) + 1) % n == if i + 1 < n then At(n, start, i + 1) else start
  {
    var p := At(n, start, i);
    if p + 1 < n { SmallMod(p + 1, n); } else { SelfMod(n); }
  }

  lemma SelfMod(n: nat)
    requires n > 0
    ensures n % n == 0
  {
  }

  lemma SmallMod(a: nat, n: nat)
    requires a < n
    ensures a % n == a
  {
  }

  class XMap<V> {
    var pairs: array?<Slot<V>>
    var nTableSize: nat
    var nDeleted: nat
    var nCount: nat
    const bAllowUpdate: bool
    // The 32-bit hash that eHashType selects; XMap_Hash reduces it modulo the table size.
    const hash: string -> nat

    ghost function Slots(): seq<Slot<V>>
      reads this, pairs
    {
      if pairs == null then [] else pairs[..]
    }

    ghost predicate Valid()
      reads this, pairs
    {
      (pairs == null <==> nTableSize == 0) && (pairs != null ==> pairs.Length == nTableSize) &&
      Inv(Slots(), hash) && nCount == CountUsed(Slots()) && nDeleted == CountDeleted(Slots())
    }

    // XMap_Init where the allocation succeeds.
    constructor (nSize: nat, hash: string -> nat, bAllowUpdate: bool)
      ensures Valid() && Slots() == Empty(nSize) && Model(Slots()) == map[]
      ensures this.hash == hash && this.bAllowUpdate == bAllowUpdate
      ensures pairs != null ==> fresh(pairs)
    {
      this.hash, this.bAllowUpdate := hash, bAllowUpdate;
      nTableSize, nDeleted, nCount, pairs := nSize, 0, 0, null;
      new;
      if nSize > 0 {
        pairs := NewTable<V>(nSize);
      }
      assert Slots() == Empty(nSize);
      CountEmpty(Slots());
    }

    method GetHash(key: string) returns (r: int)
      requires Valid()
      ensures r == MapTable.GetHash(Slots(), hash, key)
    {
      if nTableSize == 0 || pairs == null { return XMAP_EINIT; }
      var index: nat := hash(key) % nTableSize;
      ghost var s, start := Slots(), index;
      var firstAvail: int := -1;
      for i := 0 to nTableSize
        invariant index == if i < nTableSize then At(nTableSize, start, i) else start
        invariant firstAvail < pairs.Length
        invariant GetHashFrom(s, start, key, i, firstAvail) == MapTable.GetHash(s, hash, key)
      {
        NextIndex(nTableSize, start, i);
        match pairs[index] {
          case Unused => return if firstAvail >= 0 then firstAvail else index;
          case Deleted => if firstAvail < 0 { firstAvail := index; }
          case Used(k, _) => if k == key { return index; }
        }
        index := (index + 1) % nTableSize;
      }
      return if firstAvail >= 0 then firstAvail else XMAP_FULL;
    }

    // The search loop of GetPair, GetIndex and Remove.
    method Search(key: string) returns (r: int)
      requires Valid()
      ensures r == Find(Slots(), hash, key)
      ensures if key in Model(Slots()) then
                0 <= r < nTableSize && Slots()[r].Used? && Slots()[r].key == key && Slots()[r].data == Model(Slots())[key]
              else r == -1
    {
      FindIsLookup(Slots(), hash, key);
      if pairs == null { return -1; }
      var index: nat := hash(key) % nTableSize;
      ghost var s, start := Slots(), index;
      for i := 0 to nTableSize
        invariant index == if i < nTableSize then At(nTableSize, start, i) else start
        invariant FindFrom(s, start, key, i) == Find(s, hash, key)
      {
        NextIndex(nTableSize, start, i);
        match pairs[index] {
          case Unused => return -1;
          case Deleted =>
          case Used(k, _) => if k == key { return index; }
        }
        index := (index + 1) % nTableSize;
      }
      return -1;
    }

    // XMap_GetPair: the pair in the table, as its slot.
    method GetPair(key: string) returns (pair: Slot<V>)
      requires Valid()
      ensures pair == if key in Model(Slots()) then Used(key, Model(Slots())[key]) else Unused
    {
      var r := Search(key);
      pair := if r < 0 then Unused else pairs[r];
    }

    // XMap_GetIndex: the slot number, and -1 when the key is missing.
    method GetIndex(key: string) returns (found: bool, index: int)
      requires Valid()
      ensures found == (key in Model(Slots()))
      ensures found ==> 0 <= index < nTableSize && Slots()[index] == Used(key, Model(Slots())[key])
      ensures !found ==> index == -1
    {
      index := Search(key);
      found := index >= 0;
    }

    // A pair goes into a slot, and is counted.
    method Occupy(r: nat, key: string, data: V)
      requires Valid() && r < nTableSize && Inv(Slots()[r := Used(key, data)], hash)
      modifies this`nCount, this`nDeleted, pairs
      ensures Valid() && Slots() == old(Slots())[r := Used(key, data)]
    {
      hide Inv;
      ghost var s := Slots();
      CountUpdate(s, r, Used(key, data));
      if pairs[r].Deleted? && nDeleted > 0 { nDeleted := nDeleted - 1; }
      if !pairs[r].Used? { nCount := nCount + 1; }
      pairs[r] := Used(key, data);
      assert Slots() == s[r := Used(key, data)];
    }

    // XMap_PutRaw: a table of used slots has no place for a new key.
    method PutRaw(key: string, data: V) returns (status: int)
      requires Valid()
      modifies this`nCount, this`nDeleted, pairs
      ensures Valid() && Slots() == MapTable.PutRaw(old(Slots()), hash, key, data)
      ensures status == if old(nCount) < nTableSize || key in old(Model(Slots())) then XMAP_OK
                        else if nTableSize == 0 then XMAP_EINIT else XMAP_FULL
      ensures Model(Slots()) == if status == XMAP_OK then old(Model(Slots()))[key := data] else old(Model(Slots()))
    {
      hide Model, Inv, MapTable.GetHash;
      ghost var s := Slots();
      GetHashSlot(s, hash, key);
      var r := GetHash(key);
      if r < 0 { return r; }
      PutRawCorrect(s, hash, key, data);
      Occupy(r, key, data);
      return XMAP_OK;
    }

    // The refilling loop: `from` holds the used slots to put into the table now in place.
    method RefillFrom(from: array<Slot<V>>)
      requires Valid() && pairs != null && from != pairs && Slots() == Empty(nTableSize)
      requires DistinctKeys(from[..]) && CountUsed(from[..]) <= nTableSize
      modifies this`nCount, this`nDeleted, pairs
      ensures Valid() && Slots() == Refill(from[..], nTableSize, hash)
    {
      hide Model, Inv;
      assert from[..0] == [];
      for i := 0 to from.Length
        invariant Valid() && Slots() == Refill(from[..i], nTableSize, hash)
      {
        assert from[..i + 1][..i] == from[..i];
        CountPrefix(from[..], i + 1);
        assert from[..][..i + 1] == from[..i + 1];
        RefillCorrect(from[..i], nTableSize, hash);
        match from[i] {
          case Used(key, data) => var status := PutRaw(key, data);
          case _ =>
        }
      }
      assert from[..from.Length] == from[..];
    }

    method Realloc(memory: bool) returns (status: int)
      requires Valid()
      modifies this`pairs, this`nTableSize, this`nCount, this`nDeleted
      ensures Valid() && (pairs == old(pairs) || (pairs != null && fresh(pairs)))
      ensures status == MapTable.Realloc(old(Slots()), hash, memory).status
      ensures Slots() == MapTable.Realloc(old(Slots()), hash, memory).slots && Model(Slots()) == old(Model(Slots()))
      ensures status < 0 ==> unchanged(this) && (pairs != null ==> unchanged(pairs))
      ensures status < 0 || status == XMAP_OK
    {
      hide Model;
      ghost var s := Slots();
      ReallocCorrect(s, hash, memory);
      if nTableSize >= SIZE_LIMIT { return XMAP_OINV; }
      var newSize := if nTableSize > 0 then nTableSize * 2 else INITIAL_SIZE;
      if !memory { return XMAP_OMEM; }
      var table := NewTable<V>(newSize);
      var from := pairs;
      nCount, nDeleted, pairs, nTableSize := 0, 0, table, newSize;
      CountEmpty(Slots());
      if from == null { return XMAP_OK; }
      assert from[..] == s;
      RefillFrom(from);
      return XMAP_OK;
    }

    method Rehash(memory: bool) returns (status: int)
      requires Valid()
      modifies this`pairs, this`nCount, this`nDeleted
      ensures Valid() && (pairs == old(pairs) || (pairs != null && fresh(pairs)))
      ensures status == MapTable.Rehash(old(Slots()), hash, memory).status
      ensures Slots() == MapTable.Rehash(old(Slots()), hash, memory).slots && Model(Slots()) == old(Model(Slots()))
    {
      hide Model;
      ghost var s := Slots();
      RehashCorrect(s, hash, memory);
      if pairs == null || nTableSize == 0 { return XMAP_EINIT; }
      if !memory { return XMAP_OMEM; }
      var table := NewTable<V>(nTableSize);
      var from := pairs;
      pairs, nCount, nDeleted := table, 0, 0;
      CountEmpty(Slots());
      assert from[..] == s;
      RefillFrom(from);
      return XMAP_OK;
    }

    method Put(key: string, data: V, memoryGrow: bool, memoryRehash: bool) returns (status: int)
      requires Valid()
      modifies this, pairs
      ensures Valid() && (pairs == old(pairs) || (pairs != null && fresh(pairs)))
      ensures var r := MapTable.Put(old(Slots()), hash, key, data, bAllowUpdate, memoryGrow, memoryRehash);
              status == r.status && Slots() == r.slots
      ensures status == XMAP_OK ==> Model(Slots()) == old(Model(Slots()))[key := data]
      ensures status == XMAP_OK ==> nDeleted <= nTableSize / 4 && nCount * 10 < nTableSize * 7 + 10
    {
      hide Model, Refill, Store;
      ghost var s0 := Slots();
      PutCorrect(s0, hash, key, data, bAllowUpdate, memoryGrow, memoryRehash);
      PutKeepsRoom(s0, hash, key, data, bAllowUpdate, memoryGrow, memoryRehash);
      ReallocCorrect(s0, hash, memoryGrow);
      if nTableSize == 0 || pairs == null || nCount * 10 >= nTableSize * 7 {
        status := Realloc(memoryGrow);
        if status < 0 { return; }
      }
      status := StorePair(key, data, memoryRehash);
    }

    // The rest of XMap_Put. XMAP_FULL cannot come back from GetHash here, so the source's loop
    // around Realloc never runs.
    method StorePair(key: string, data: V, memory: bool) returns (status: int)
      requires Valid() && nCount < nTableSize
      modifies this, pairs
      ensures Valid() && (pairs == old(pairs) || (pairs != null && fresh(pairs)))
      ensures var r := Store(old(Slots()), hash, key, data, bAllowUpdate, memory); status == r.status && Slots() == r.slots
    {
      hide Model, Refill, Inv, MapTable.GetHash;
      ghost var s := Slots();
      GetHashSlot(s, hash, key);
      var r := GetHash(key);
      if r < 0 { return r; }
      if pairs[r].Used? && !bAllowUpdate { return XMAP_EEXIST; }
      PutRawCorrect(s, hash, key, data);
      Occupy(r, key, data);
      if nDeleted > nTableSize / 4 {
        status := Rehash(memory);
        if status < 0 { return; }
      }
      return XMAP_OK;
    }

    // XMap_Update on the slot of a pair, where the counters stay as they are.
    method Update(index: int, data: V) returns (status: int)
      requires Valid() && (0 <= index < nTableSize ==> Slots()[index].Used?)
      modifies pairs
      ensures Valid()
      ensures status == if index < 0 then XMAP_OINV else if index >= nTableSize then XMAP_MISSING else XMAP_OK
      ensures if status == XMAP_OK then
                Slots() == old(Slots())[index := Used(old(Slots()[index].key), data)] &&
                Model(Slots()) == old(Model(Slots()))[old(Slots()[index].key) := data]
              else Slots() == old(Slots())
    {
      hide Model;
      if index < 0 { return XMAP_OINV; }
      if index >= nTableSize { return XMAP_MISSING; }
      ghost var s := Slots();
      UpdateCorrect(s, hash, index, data);
      pairs[index] := pairs[index].(data := data);
      assert Slots() == s[index := Used(s[index].key, data)];
      return XMAP_OK;
    }

    method Remove(key: string) returns (status: int)
      requires Valid()
      modifies this`nCount, this`nDeleted, pairs
      ensures Valid() && Slots() == MapTable.Remove(old(Slots()), hash, key).slots
      ensures status == (if old(nTableSize) == 0 then XMAP_EINIT
                         else if key in old(Model(Slots())) then XMAP_OK else XMAP_MISSING)
      ensures Model(Slots()) == old(Model(Slots())) - {key}
    {
      hide Model;
      ghost var s := Slots();
      RemoveCorrect(s, hash, key);
      if pairs == null { return XMAP_EINIT; }
      var r := Search(key);
      if r < 0 { return XMAP_MISSING; }
      CountUpdate(s, r, Slot<V>.Deleted);
      if nCount > 0 { nCount := nCount - 1; }
      pairs[r] := Deleted;
      nDeleted := nDeleted + 1;
      assert Slots() == s[r := Deleted];
      return XMAP_OK;
    }

    // XMap_Reset; `cleared` are the pairs handed to clearCb, in table order.
    method Reset() returns (ghost cleared: seq<(string, V)>)
      requires Valid()
      modifies this`nCount, this`nDeleted, pairs
      ensures Valid() && Slots() == Empty(nTableSize) && Model(Slots()) == map[]
      ensures cleared == Pairs(old(Slots()))
    {
      hide Model, Inv, CountUsed, CountDeleted;
      cleared := [];
      EmptyTable<V>(nTableSize, hash);
      if pairs == null { return; }
      ghost var s := Slots();
      for i := 0 to nTableSize
        invariant pairs.Length == nTableSize && |s| == nTableSize
        invariant forall k | 0 <= k < i :: pairs[k] == Unused
        invariant forall k | i <= k < nTableSize :: pairs[k] == s[k]
        invariant cleared == Pairs(s[..i])
      {
        assert s[..i + 1][..i] == s[..i];
        if pairs[i].Used? {
          cleared := cleared + [(pairs[i].key, pairs[i].data)];
          pairs[i] := Unused;
        } else if pairs[i].Deleted? {
          pairs[i] := Unused;
        }
      }
      assert s[..nTableSize] == s;
      nCount, nDeleted := 0, 0;
      assert Slots() == Empty(nTableSize);
    }

    // XMap_Iterate: f is what the callback returns on its k-th visit, to this pair. It visits the
    // pairs in order, all of them or up to the first answer that is not XMAP_OK.
    method Iterate(f: (nat, (string, V)) -> int) returns (status: int, visited: seq<(string, V)>)
      requires Valid()
      ensures pairs == null ==> status == XMAP_EINIT && visited == []
      ensures pairs != null && nCount == 0 ==> status == XMAP_EMPTY && visited == []
      ensures pairs != null && nCount > 0 ==>
        visited != [] && visited <= Pairs(Slots()) &&
        (forall k | 0 <= k < |visited| - 1 :: f(k, visited[k]) == XMAP_OK) &&
        status == f(|visited| - 1, visited[|visited| - 1]) && (status == XMAP_OK ==> visited == Pairs(Slots()))
    {
      hide *;
      visited := [];
      ghost var s := Slots();
      ShapeOf();
      PairsCount(s);
      if pairs == null { return XMAP_EINIT, []; }
      if nCount == 0 { return XMAP_EMPTY, []; }
      PairsNone(s);
      for i := 0 to nTableSize
        invariant visited == Pairs(s[..i])
        invariant forall k | 0 <= k < |visited| :: f(k, visited[k]) == XMAP_OK
      {
        PairsNext(s, i);
        PairsPrefix(s, i + 1);
        if pairs[i].Used? {
          var pair := (pairs[i].key, pairs[i].data);
          status := f(|visited|, pair);
          visited := visited + [pair];
          if status != XMAP_OK { return; }
        }
      }
      assert s[..nTableSize] == s;
      status := XMAP_OK;
    }

    lemma ShapeOf()
      requires Valid()
      ensures pairs != null ==> Slots() == pairs[..] && pairs.Length == nTableSize
      ensures CountUsed(Slots()) == nCount
    {
    }
  }

  lemma PairsNone<V>(s: seq<Slot<V>>)
    ensures Pairs(s[..0]) == []
  {
  }

  lemma PairsNext<V>(s: seq<Slot<V>>, i: nat)
    requires i < |s|
    ensures Pairs(s[..i + 1]) == if s[i].Used? then Pairs(s[..i]) + [(s[i].key, s[i].data)] else Pairs(s[..i])
  {
    assert s[..i + 1][..i] == s[..i];
  }

  method NewTable<V>(n: nat) returns (table: array<Slot<V>>)
    ensures fresh(table) && table.Length == n && table[..] == Empty(n)
  {
    table := new Slot<V>[n](_ => Unused);
  }

  lemma EmptyTable<V>(n: nat, hash: string -> nat)
    ensures var s: seq<Slot<V>> := Empty(n);
            Inv(s, hash) && CountUsed(s) == 0 && CountDeleted(s) == 0 && Model(s) == map[]
  {
    CountEmpty<V>(Empty(n));
  }

  lemma {:induction false} CountPrefix<V>(s: seq<Slot<V>>, i: nat)
    requires i <= |s|
    ensures CountUsed(s[..i]) <= CountUsed(s)
    decreases |s|
  {
    if i == |s| {
      assert s[..i] == s;
    } else {
      CountPrefix(s[..|s| - 1], i);
      assert s[..|s| - 1][..i] == s[..i];
    }
  }

  // The used pairs in table order.
  function Pairs<V>(s: seq<Slot<V>>): seq<(string, V)> {
    if s == [] then []
    else Pairs(s[..|s| - 1]) + match s[|s| - 1] case Used(key, data) => [(key, data)] case _ => []
  }

  lemma {:induction false} PairsCount<V>(s: seq<Slot<V>>)
    ensures |Pairs(s)| == CountUsed(s)
  {
    if s != [] { PairsCount(s[..|s| - 1]); }
  }

  lemma {:induction false} PairsPrefix<V>(s: seq<Slot<V>>, i: nat)
    requires i <= |s|
    ensures Pairs(s[..i]) <= Pairs(s)
    decreases |s|
  {
    if i == |s| {
      assert s[..i] == s;
    } else {
      PairsPrefix(s[..|s| - 1], i);
      assert s[..|s| - 1][..i] == s[..i];
    }
  }

  // An iteration visits every pair of the map, and each once.
  lemma {:induction false} PairsVisitOnce<V>(s: seq<Slot<V>>)
    requires DistinctKeys(s)
    ensures forall i, j | 0 <= i < j < |Pairs(s)| :: Pairs(s)[i].0 != Pairs(s)[j].0
    ensures forall i | 0 <= i < |Pairs(s)| :: Pairs(s)[i].0 in Model(s) && Model(s)[Pairs(s)[i].0] == Pairs(s)[i].1
    ensures |Pairs(s)| == |Model(s)|
  {
    if s != [] {
      var n := |s| - 1;
      PairsVisitOnce(s[..n]);
      if s[n].Used? {
        ModelKey(s[..n], s[n].key);
        assert s[n].key !in Model(s[..n]);
      }
    }
  }
}
