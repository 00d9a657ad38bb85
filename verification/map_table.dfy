/**
 The open-addressing table of src/data/map.c as functions on the sequence of its slots, and
 why it behaves as a finite map.
 */
module MapTable {

  datatype Slot<V> = Unused | Deleted | Used(key: string, data: V)

  const XMAP_OK := 1
  const XMAP_EMPTY := 0
  const XMAP_OMEM := -2
  const XMAP_FULL := -3
  const XMAP_OINV := -4
  const XMAP_MISSING := -5
  const XMAP_EINIT := -6
  const XMAP_EEXIST := -7

  const INITIAL_SIZE := 64
  const SIZE_LIMIT := 0x7FFF_FFFF  // UINT32_MAX / 2

  // ----- probe paths in a table of n slots -----

  // The i-th slot on the path that begins at `start`.
  function At(n: nat, start: nat, i: nat): (p: nat)
    requires start < n && i < n
    ensures p < n
  {
    if start + i < n then start + i else start + i - n
  }

  // Where on that path slot p comes.
  function Distance(n: nat, start: nat, p: nat): (i: nat)
    requires start < n && p < n
    ensures i < n && At(n, start, i) == p
    ensures forall k | 0 <= k < n && At(n, start, k) == p :: k == i
  {
    if p >= start then p - start else p + n - start
  }

  function Home(hash: string -> nat, key: string, n: nat): (h: nat)
    requires n > 0
    ensures h < n
  {
    hash(key) % n
  }

  // ----- the state of a table -----

  ghost predicate DistinctKeys<V>(s: seq<Slot<V>>) {
    forall i, j | 0 <= i < j < |s| && s[i].Used? && s[j].Used? :: s[i].key != s[j].key
  }

  ghost predicate PathClear<V>(s: seq<Slot<V>>, start: nat, d: nat)
    requires start < |s| && d <= |s|
  {
    forall e | 0 <= e < d :: !s[At(|s|, start, e)].Unused?
  }

  // No probe path to a used key crosses an unused slot, and used keys are distinct.
  ghost predicate Inv<V>(s: seq<Slot<V>>, hash: string -> nat) {
    DistinctKeys(s) &&
    forall p | 0 <= p < |s| && s[p].Used? ::
      PathClear(s, Home(hash, s[p].key, |s|), Distance(|s|, Home(hash, s[p].key, |s|), p))
  }

  ghost predicate Holds<V>(s: seq<Slot<V>>, key: string) {
    exists p | 0 <= p < |s| :: s[p].Used? && s[p].key == key
  }

  function CountUsed<V>(s: seq<Slot<V>>): (n: nat)
    ensures n <= |s|
  {
    if s == [] then 0 else CountUsed(s[..|s| - 1]) + if s[|s| - 1].Used? then 1 else 0
  }

  function CountDeleted<V>(s: seq<Slot<V>>): (n: nat)
    ensures n + CountUsed(s) <= |s|
  {
    if s == [] then 0 else CountDeleted(s[..|s| - 1]) + if s[|s| - 1].Deleted? then 1 else 0
  }

  // The finite map that the table stands for.
  function Model<V>(s: seq<Slot<V>>): map<string, V> {
    if s == [] then map[]
    else
      var rest := Model(s[..|s| - 1]);
      match s[|s| - 1]
      case Used(key, data) => rest[key := data]
      case _ => rest
  }

  // ----- the operations -----

  // XMap_GetHash from its i-th round on; `avail` is nFirstAvail.
  function GetHashFrom<V>(s: seq<Slot<V>>, start: nat, key: string, i: nat, avail: int): int
    requires start < |s| && i <= |s|
    decreases |s| - i
  {
    if i == |s| then if avail >= 0 then avail else XMAP_FULL
    else
      var p := At(|s|, start, i);
      match s[p]
      case Unused => if avail >= 0 then avail else p
      case Deleted => GetHashFrom(s, start, key, i + 1, if avail < 0 then p else avail)
      case Used(k, _) => if k == key then p else GetHashFrom(s, start, key, i + 1, avail)
  }

  function GetHash<V>(s: seq<Slot<V>>, hash: string -> nat, key: string): int {
    if |s| == 0 then XMAP_EINIT else GetHashFrom(s, Home(hash, key, |s|), key, 0, -1)
  }

  // The search of XMap_GetPair, XMap_GetIndex and XMap_Remove: the slot, or -1.
  function FindFrom<V>(s: seq<Slot<V>>, start: nat, key: string, i: nat): int
    requires start < |s| && i <= |s|
    decreases |s| - i
  {
    if i == |s| then -1
    else
      var p := At(|s|, start, i);
      match s[p]
      case Unused => -1
      case Deleted => FindFrom(s, start, key, i + 1)
      case Used(k, _) => if k == key then p else FindFrom(s, start, key, i + 1)
  }

  function Find<V>(s: seq<Slot<V>>, hash: string -> nat, key: string): int {
    if |s| == 0 then -1 else FindFrom(s, Home(hash, key, |s|), key, 0)
  }

  // XMap_PutRaw where it finds a slot.
  function PutRaw<V>(s: seq<Slot<V>>, hash: string -> nat, key: string, data: V): seq<Slot<V>> {
    var r := GetHash(s, hash, key);
    if 0 <= r < |s| then s[r := Used(key, data)] else s
  }

  function Empty<V>(n: nat): (s: seq<Slot<V>>)
    ensures |s| == n && forall i | 0 <= i < n :: s[i] == Unused
  {
    seq(n, _ => Unused)
  }

  // The loop of XMap_Realloc and XMap_Rehash: the used slots of `src` put into a fresh table.
  function Refill<V>(src: seq<Slot<V>>, n: nat, hash: string -> nat): seq<Slot<V>> {
    if src == [] then Empty(n)
    else
      var t := Refill(src[..|src| - 1], n, hash);
      match src[|src| - 1]
      case Used(key, data) => PutRaw(t, hash, key, data)
      case _ => t
  }

  function GrownSize(n: nat): nat { if n == 0 then INITIAL_SIZE else n * 2 }

  datatype Result<V> = Result(status: int, slots: seq<Slot<V>>)

  // XMap_Realloc; `memory` says whether the allocation succeeds.
  function Realloc<V>(s: seq<Slot<V>>, hash: string -> nat, memory: bool): Result<V> {
    if |s| >= SIZE_LIMIT then Result(XMAP_OINV, s)
    else if !memory then Result(XMAP_OMEM, s)
    else Result(XMAP_OK, Refill(s, GrownSize(|s|), hash))
  }

  // XMap_Rehash on an initialized table.
  function Rehash<V>(s: seq<Slot<V>>, hash: string -> nat, memory: bool): Result<V> {
    if |s| == 0 then Result(XMAP_EINIT, s)
    else if !memory then Result(XMAP_OMEM, s)
    else Result(XMAP_OK, Refill(s, |s|, hash))
  }

  predicate MustGrow<V>(s: seq<Slot<V>>) { |s| == 0 || CountUsed(s) * 10 >= |s| * 7 }

  // XMap_Put after the growth step, on a table where GetHash does not return XMAP_FULL.
  function Store<V>(s: seq<Slot<V>>, hash: string -> nat, key: string, data: V, allowUpdate: bool, memory: bool): Result<V> {
    var r := GetHash(s, hash, key);
    if !(0 <= r < |s|) then Result(r, s)
    else if s[r].Used? && !allowUpdate then Result(XMAP_EEXIST, s)
    else
      var t := s[r := Used(key, data)];
      if CountDeleted(t) > |t| / 4 then Rehash(t, hash, memory) else Result(XMAP_OK, t)
  }

  // XMap_Put; the two flags are the outcomes of the allocations for growing and for rehashing.
  function Put<V>(s: seq<Slot<V>>, hash: string -> nat, key: string, data: V, allowUpdate: bool,
                  memoryGrow: bool, memoryRehash: bool): Result<V> {
    if MustGrow(s) then
      var g := Realloc(s, hash, memoryGrow);
      if g.status < 0 then g else Store(g.slots, hash, key, data, allowUpdate, memoryRehash)
    else Store(s, hash, key, data, allowUpdate, memoryRehash)
  }

  function Remove<V>(s: seq<Slot<V>>, hash: string -> nat, key: string): Result<V> {
    var p := Find(s, hash, key);
    if |s| == 0 then Result(XMAP_EINIT, s)
    else if !(0 <= p < |s|) then Result(XMAP_MISSING, s)
    else Result(XMAP_OK, s[p := Deleted])
  }

  // ======================= counting =======================

  lemma {:induction false} CountUpdate<V>(s: seq<Slot<V>>, i: nat, x: Slot<V>)
    requires i < |s|
    ensures CountUsed(s[i := x]) == CountUsed(s) - (if s[i].Used? then 1 else 0) + if x.Used? then 1 else 0
    ensures CountDeleted(s[i := x]) == CountDeleted(s) - (if s[i].Deleted? then 1 else 0) + if x.Deleted? then 1 else 0
  {
    var n := |s| - 1;
    if i < n {
      CountUpdate(s[..n], i, x);
      assert s[i := x][..n] == s[..n][i := x];
    } else {
      assert s[i := x][..n] == s[..n];
    }
  }

  lemma {:induction false} SomeFree<V>(s: seq<Slot<V>>) returns (p: nat)
    requires CountUsed(s) < |s|
    ensures p < |s| && !s[p].Used?
  {
    var n := |s| - 1;
    if s[n].Used? { p := SomeFree(s[..n]); } else { p := n; }
  }

  lemma {:induction false} CountEmpty<V>(s: seq<Slot<V>>)
    requires forall i | 0 <= i < |s| :: s[i] == Unused
    ensures CountUsed(s) == 0 && CountDeleted(s) == 0 && Model(s) == map[]
  {
    if s != [] { CountEmpty(s[..|s| - 1]); }
  }

  // ======================= the map a table stands for =======================

  lemma {:induction false} ModelLookup<V>(s: seq<Slot<V>>, p: nat)
    requires DistinctKeys(s) && p < |s| && s[p].Used?
    ensures s[p].key in Model(s) && Model(s)[s[p].key] == s[p].data
  {
    var n := |s| - 1;
    if p < n { ModelLookup(s[..n], p); }
  }

  lemma {:induction false} ModelKey<V>(s: seq<Slot<V>>, key: string)
    ensures key in Model(s) <==> Holds(s, key)
  {
    if s != [] {
      var n := |s| - 1;
      ModelKey(s[..n], key);
      if Holds(s[..n], key) {
        var p :| 0 <= p < n && s[..n][p].Used? && s[..n][p].key == key;
        assert s[p].Used? && s[p].key == key;
      }
      if Holds(s, key) && !(s[n].Used? && s[n].key == key) {
        var p :| 0 <= p < |s| && s[p].Used? && s[p].key == key;
        assert s[..n][p].Used? && s[..n][p].key == key;
      }
    }
  }

  // Two tables of distinct keys that agree pointwise on what they hold stand for the same map.
  lemma ModelOf<V>(s: seq<Slot<V>>, m: map<string, V>)
    requires DistinctKeys(s)
    requires forall p | 0 <= p < |s| && s[p].Used? :: s[p].key in m && m[s[p].key] == s[p].data
    requires forall k | k in m :: Holds(s, k)
    ensures Model(s) == m
  {
    forall k ensures k in Model(s) <==> k in m {
      ModelKey(s, k);
      if Holds(s, k) { var p :| 0 <= p < |s| && s[p].Used? && s[p].key == k; }
    }
    forall k | k in m ensures Model(s)[k] == m[k] {
      var p :| 0 <= p < |s| && s[p].Used? && s[p].key == k;
      ModelLookup(s, p);
    }
  }

  lemma ModelAt<V>(s: seq<Slot<V>>)
    requires DistinctKeys(s)
    ensures forall p | 0 <= p < |s| && s[p].Used? :: s[p].key in Model(s) && Model(s)[s[p].key] == s[p].data
    ensures forall k | k in Model(s) :: Holds(s, k)
  {
    forall p | 0 <= p < |s| && s[p].Used? ensures s[p].key in Model(s) && Model(s)[s[p].key] == s[p].data {
      ModelLookup(s, p);
    }
    forall k | k in Model(s) ensures Holds(s, k) { ModelKey(s, k); }
  }

  lemma ModelStore<V>(s: seq<Slot<V>>, r: nat, key: string, data: V)
    requires DistinctKeys(s) && r < |s|
    requires if s[r].Used? then s[r].key == key else !Holds(s, key)
    ensures DistinctKeys(s[r := Used(key, data)])
    ensures Model(s[r := Used(key, data)]) == Model(s)[key := data]
  {
    hide Model;
    var t := s[r := Used(key, data)];
    assert DistinctKeys(t) by {
      forall i, j | 0 <= i < j < |t| && t[i].Used? && t[j].Used? ensures t[i].key != t[j].key {
        if i == r || j == r {
          var o := if i == r then j else i;
          assert s[o].Used? && t[o] == s[o];
        }
      }
    }
    ModelAt(s);
    var m := Model(s)[key := data];
    forall p | 0 <= p < |t| && t[p].Used? ensures t[p].key in m && m[t[p].key] == t[p].data {
      if p != r { assert t[r].Used?; }
    }
    forall k | k in m ensures Holds(t, k) {
      if k == key {
        assert t[r].key == k;
      } else {
        var p :| 0 <= p < |s| && s[p].Used? && s[p].key == k;
        assert t[p].Used? && t[p].key == k;
      }
    }
    ModelOf(t, m);
  }

  lemma ModelErase<V>(s: seq<Slot<V>>, p: nat)
    requires DistinctKeys(s) && p < |s| && s[p].Used?
    ensures DistinctKeys(s[p := Deleted]) && Model(s[p := Deleted]) == Model(s) - {s[p].key}
  {
    hide Model;
    var t := s[p := Deleted];
    ModelAt(s);
    var m := Model(s) - {s[p].key};
    forall q | 0 <= q < |t| && t[q].Used? ensures t[q].key in m && m[t[q].key] == t[q].data {
      assert s[q].Used? && q != p;
    }
    forall k | k in m ensures Holds(t, k) {
      var q :| 0 <= q < |s| && s[q].Used? && s[q].key == k;
      assert t[q].Used? && t[q].key == k;
    }
    ModelOf(t, m);
  }

  // ======================= probing =======================

  // A key that the table holds is found where it is.
  lemma {:induction false} GetHashFinds<V>(s: seq<Slot<V>>, start: nat, p: nat, i: nat, avail: int)
    requires start < |s| && p < |s| && s[p].Used? && DistinctKeys(s)
    requires PathClear(s, start, Distance(|s|, start, p)) && i <= Distance(|s|, start, p)
    ensures GetHashFrom(s, start, s[p].key, i, avail) == p && FindFrom(s, start, s[p].key, i) == p
    decreases |s| - i
  {
    var q := At(|s|, start, i);
    if i < Distance(|s|, start, p) {
      assert q != p;
      GetHashFinds(s, start, p, i + 1, if s[q].Deleted? && avail < 0 then q else avail);
    }
  }

  lemma {:induction false} AvailWins<V>(s: seq<Slot<V>>, start: nat, key: string, i: nat, avail: int)
    requires start < |s| && i <= |s| && avail >= 0 && !Holds(s, key)
    ensures GetHashFrom(s, start, key, i, avail) == avail
    decreases |s| - i
  {
    if i < |s| { AvailWins(s, start, key, i + 1, avail); }
  }

  // A key that the table does not hold gets the first slot on its path that is not used.
  lemma {:induction false} GetHashFree<V>(s: seq<Slot<V>>, start: nat, key: string, i: nat, free: nat) returns (d: nat)
    requires start < |s| && i <= free < |s| && !Holds(s, key) && !s[At(|s|, start, free)].Used?
    ensures i <= d <= free && GetHashFrom(s, start, key, i, -1) == At(|s|, start, d)
    ensures !s[At(|s|, start, d)].Used? && forall e | i <= e < d :: s[At(|s|, start, e)].Used?
    decreases |s| - i
  {
    var p := At(|s|, start, i);
    match s[p] {
      case Unused => d := i;
      case Deleted => d := i; AvailWins(s, start, key, i + 1, p);
      case Used(_, _) => d := GetHashFree(s, start, key, i + 1, free);
    }
  }

  lemma {:induction false} FindMisses<V>(s: seq<Slot<V>>, start: nat, key: string, i: nat)
    requires start < |s| && i <= |s| && !Holds(s, key)
    ensures FindFrom(s, start, key, i) == -1
    decreases |s| - i
  {
    if i < |s| { FindMisses(s, start, key, i + 1); }
  }

  // XMap_GetPair, XMap_GetIndex: the lookup of the finite map.
  lemma FindIsLookup<V>(s: seq<Slot<V>>, hash: string -> nat, key: string)
    requires Inv(s, hash)
    ensures var p := Find(s, hash, key);
            if key in Model(s) then 0 <= p < |s| && s[p].Used? && s[p].key == key && s[p].data == Model(s)[key]
            else p == -1
  {
    hide Model;
    ModelKey(s, key);
    if Holds(s, key) {
      var p :| 0 <= p < |s| && s[p].Used? && s[p].key == key;
      GetHashFinds(s, Home(hash, key, |s|), p, 0, -1);
      ModelLookup(s, p);
    } else if |s| > 0 {
      FindMisses(s, Home(hash, key, |s|), key, 0);
    }
  }

  lemma {:induction false} AllUsed<V>(s: seq<Slot<V>>)
    requires CountUsed(s) == |s|
    ensures forall p | 0 <= p < |s| :: s[p].Used?
  {
    if s != [] {
      AllUsed(s[..|s| - 1]);
      assert forall p | 0 <= p < |s| - 1 :: s[p] == s[..|s| - 1][p];
    }
  }

  lemma {:induction false} GetHashFull<V>(s: seq<Slot<V>>, start: nat, key: string, i: nat)
    requires start < |s| && i <= |s| && !Holds(s, key) && forall p | 0 <= p < |s| :: s[p].Used?
    ensures GetHashFrom(s, start, key, i, -1) == XMAP_FULL
    decreases |s| - i
  {
    if i < |s| { GetHashFull(s, start, key, i + 1); }
  }

  // Where XMap_GetHash sends a key. Only a new key finds no slot, and only in a table of used ones.
  lemma GetHashSlot<V>(s: seq<Slot<V>>, hash: string -> nat, key: string)
    requires Inv(s, hash)
    ensures var r := GetHash(s, hash, key);
            if CountUsed(s) == |s| && key !in Model(s) then r == if |s| == 0 then XMAP_EINIT else XMAP_FULL
            else 0 <= r < |s| && (if key in Model(s) then s[r].Used? && s[r].key == key else !s[r].Used? && !Holds(s, key)) &&
                 PathClear(s, Home(hash, key, |s|), Distance(|s|, Home(hash, key, |s|), r))
  {
    hide Model;
    ModelKey(s, key);
    if |s| > 0 {
      var start := Home(hash, key, |s|);
      if Holds(s, key) {
        var p :| 0 <= p < |s| && s[p].Used? && s[p].key == key;
        GetHashFinds(s, start, p, 0, -1);
      } else if CountUsed(s) < |s| {
        var f := SomeFree(s);
        var d := GetHashFree(s, start, key, 0, Distance(|s|, start, f));
      } else {
        AllUsed(s);
        GetHashFull(s, start, key, 0);
      }
    }
  }

  // ======================= what every operation keeps =======================

  lemma PutRawCorrect<V>(s: seq<Slot<V>>, hash: string -> nat, key: string, data: V)
    requires Inv(s, hash) && (CountUsed(s) < |s| || key in Model(s))
    ensures var t := PutRaw(s, hash, key, data);
            |t| == |s| && Inv(t, hash) && Model(t) == Model(s)[key := data] &&
            CountUsed(t) == CountUsed(s) + (if key in Model(s) then 0 else 1) &&
            CountDeleted(t) <= CountDeleted(s)
  {
    hide Model;
    GetHashSlot(s, hash, key);
    var r := GetHash(s, hash, key);
    ModelKey(s, key);
    ModelStore(s, r, key, data);
    CountUpdate(s, r, Used(key, data));
    StoreKeepsPaths(s, hash, r, key, data);
  }

  lemma StoreKeepsPaths<V>(s: seq<Slot<V>>, hash: string -> nat, r: nat, key: string, data: V)
    requires r < |s| && Inv(s, hash) && DistinctKeys(s[r := Used(key, data)])
    requires PathClear(s, Home(hash, key, |s|), Distance(|s|, Home(hash, key, |s|), r))
    ensures Inv(s[r := Used(key, data)], hash)
  {
    var t := s[r := Used(key, data)];
    forall p | 0 <= p < |t| && t[p].Used?
      ensures PathClear(t, Home(hash, t[p].key, |t|), Distance(|t|, Home(hash, t[p].key, |t|), p))
    {
      var start := Home(hash, t[p].key, |t|);
      assert PathClear(s, start, Distance(|s|, start, p));
    }
  }

  lemma EraseKeepsPaths<V>(s: seq<Slot<V>>, hash: string -> nat, p: nat)
    requires p < |s| && Inv(s, hash) && DistinctKeys(s[p := Deleted])
    ensures Inv(s[p := Deleted], hash)
  {
    var t := s[p := Deleted];
    forall q | 0 <= q < |t| && t[q].Used?
      ensures PathClear(t, Home(hash, t[q].key, |t|), Distance(|t|, Home(hash, t[q].key, |t|), q))
    {
      var start := Home(hash, s[q].key, |s|);
      assert PathClear(s, start, Distance(|s|, start, q));
    }
  }

  // Refilling a table with room for all used slots loses nothing and leaves no tombstone.
  lemma {:induction false} RefillCorrect<V>(src: seq<Slot<V>>, n: nat, hash: string -> nat)
    requires DistinctKeys(src) && CountUsed(src) <= n
    ensures var t := Refill(src, n, hash);
            |t| == n && Inv(t, hash) && Model(t) == Model(src) && CountUsed(t) == CountUsed(src) && CountDeleted(t) == 0
  {
    if src == [] {
      CountEmpty<V>(Empty(n));
    } else {
      var k := |src| - 1;
      RefillCorrect(src[..k], n, hash);
      var t := Refill(src[..k], n, hash);
      if src[k].Used? {
        hide Model;
        ModelKey(src[..k], src[k].key);
        assert !Holds(src[..k], src[k].key);
        PutRawCorrect(t, hash, src[k].key, src[k].data);
        ModelLast(src);
      }
    }
  }

  lemma ModelLast<V>(s: seq<Slot<V>>)
    requires s != [] && s[|s| - 1].Used?
    ensures Model(s) == Model(s[..|s| - 1])[s[|s| - 1].key := s[|s| - 1].data]
  {
  }

  // Growing keeps the map; a failure leaves the table as it was.
  lemma ReallocCorrect<V>(s: seq<Slot<V>>, hash: string -> nat, memory: bool)
    requires Inv(s, hash)
    ensures var r := Realloc(s, hash, memory);
            Inv(r.slots, hash) && Model(r.slots) == Model(s) && (r.status != XMAP_OK ==> r.slots == s) &&
            (r.status == XMAP_OK <==> memory && |s| < SIZE_LIMIT) &&
            (r.status == XMAP_OK ==> |r.slots| == GrownSize(|s|) && CountUsed(r.slots) == CountUsed(s) && CountDeleted(r.slots) == 0)
  {
    if memory { RefillCorrect(s, GrownSize(|s|), hash); }
  }

  lemma RehashCorrect<V>(s: seq<Slot<V>>, hash: string -> nat, memory: bool)
    requires Inv(s, hash)
    ensures var r := Rehash(s, hash, memory);
            Inv(r.slots, hash) && Model(r.slots) == Model(s) && |r.slots| == |s| && CountUsed(r.slots) == CountUsed(s) &&
            (r.status != XMAP_OK ==> r.slots == s) && (r.status == XMAP_OK ==> CountDeleted(r.slots) == 0) &&
            (r.status == XMAP_OK <==> memory && |s| > 0)
  {
    RefillCorrect(s, |s|, hash);
  }

  lemma StoreCorrect<V>(s: seq<Slot<V>>, hash: string -> nat, key: string, data: V, allowUpdate: bool, memory: bool)
    requires Inv(s, hash) && CountUsed(s) < |s|
    ensures var r := Store(s, hash, key, data, allowUpdate, memory);
            Inv(r.slots, hash) && |r.slots| == |s| && GetHash(s, hash, key) != XMAP_FULL &&
            (r.status == XMAP_EEXIST <==> key in Model(s) && !allowUpdate) &&
            Model(r.slots) == (if r.status == XMAP_EEXIST then Model(s) else Model(s)[key := data]) &&
            (r.status == XMAP_OK || r.status == XMAP_EEXIST || (r.status == XMAP_OMEM && !memory)) &&
            (r.status == XMAP_OK ==> CountDeleted(r.slots) <= |r.slots| / 4) &&
            CountUsed(r.slots) <= CountUsed(s) + 1
  {
    hide Model, Refill;
    GetHashSlot(s, hash, key);
    PutRawCorrect(s, hash, key, data);
    RehashCorrect(PutRaw(s, hash, key, data), hash, memory);
  }

  // XMap_Put: the finite map gets the pair, whatever the table had to do for it.
  lemma PutCorrect<V>(s: seq<Slot<V>>, hash: string -> nat, key: string, data: V, allowUpdate: bool,
                      memoryGrow: bool, memoryRehash: bool)
    requires Inv(s, hash)
    ensures var r := Put(s, hash, key, data, allowUpdate, memoryGrow, memoryRehash);
            Inv(r.slots, hash) && r.status != XMAP_FULL &&
            (r.status == XMAP_OK ==> Model(r.slots) == Model(s)[key := data] && (key in Model(s) ==> allowUpdate)) &&
            (r.status == XMAP_EEXIST ==> Model(r.slots) == Model(s) && key in Model(s) && !allowUpdate) &&
            (r.status == XMAP_OINV ==> r.slots == s && |s| >= SIZE_LIMIT) &&
            (r.status == XMAP_OMEM ==> if MustGrow(s) && !memoryGrow then r.slots == s
                                       else !memoryRehash && Model(r.slots) == Model(s)[key := data]) &&
            (r.status == XMAP_OK || r.status == XMAP_EEXIST || r.status == XMAP_OINV || r.status == XMAP_OMEM)
  {
    hide Model, Refill, Store;
    ReallocCorrect(s, hash, memoryGrow);
    var t := if MustGrow(s) then Realloc(s, hash, memoryGrow).slots else s;
    if CountUsed(t) < |t| { StoreCorrect(t, hash, key, data, allowUpdate, memoryRehash); }
  }

  // Load and tombstones after every successful XMap_Put.
  lemma PutKeepsRoom<V>(s: seq<Slot<V>>, hash: string -> nat, key: string, data: V, allowUpdate: bool,
                        memoryGrow: bool, memoryRehash: bool)
    requires Inv(s, hash)
    ensures var r := Put(s, hash, key, data, allowUpdate, memoryGrow, memoryRehash);
            r.status == XMAP_OK ==>
              CountDeleted(r.slots) <= |r.slots| / 4 && CountUsed(r.slots) * 10 < |r.slots| * 7 + 10 &&
              |r.slots| == if MustGrow(s) then GrownSize(|s|) else |s|
  {
    hide Model, Refill, Store;
    ReallocCorrect(s, hash, memoryGrow);
    var t := if MustGrow(s) then Realloc(s, hash, memoryGrow).slots else s;
    if CountUsed(t) < |t| { StoreCorrect(t, hash, key, data, allowUpdate, memoryRehash); }
  }

  lemma RemoveCorrect<V>(s: seq<Slot<V>>, hash: string -> nat, key: string)
    requires Inv(s, hash)
    ensures var r := Remove(s, hash, key);
            Inv(r.slots, hash) && |r.slots| == |s| && (r.status == XMAP_OK <==> key in Model(s)) &&
            Model(r.slots) == Model(s) - {key} && (r.status != XMAP_OK ==> r.slots == s)
  {
    hide Model;
    FindIsLookup(s, hash, key);
    var p := Find(s, hash, key);
    if key in Model(s) {
      ModelErase(s, p);
      EraseKeepsPaths(s, hash, p);
    } else {
      assert Model(s) - {key} == Model(s);
    }
  }

  // XMap_Update on a used slot.
  lemma UpdateCorrect<V>(s: seq<Slot<V>>, hash: string -> nat, p: nat, data: V)
    requires Inv(s, hash) && p < |s| && s[p].Used?
    ensures var t := s[p := Used(s[p].key, data)];
            Inv(t, hash) && Model(t) == Model(s)[s[p].key := data] &&
            CountUsed(t) == CountUsed(s) && CountDeleted(t) == CountDeleted(s)
  {
    hide Model;
    var key := s[p].key;
    ModelStore(s, p, key, data);
    CountUpdate(s, p, Used(key, data));
    StoreKeepsPaths(s, hash, p, key, data);
  }

  // ======================= any run of operations =======================

  datatype Op<V> =
    | OpPut(key: string, data: V, memoryGrow: bool, memoryRehash: bool)
    | OpUpdate(slot: nat, data: V)
    | OpRemove(key: string)
    | OpReset
    | OpRealloc(memory: bool)
    | OpRehash(memory: bool)

  // Update is meant for the slot that GetIndex has just returned.
  predicate Allowed<V>(s: seq<Slot<V>>, op: Op<V>) {
    op.OpUpdate? ==> op.slot < |s| && s[op.slot].Used?
  }

  function Step<V>(s: seq<Slot<V>>, hash: string -> nat, allowUpdate: bool, op: Op<V>): seq<Slot<V>>
    requires Allowed(s, op)
  {
    match op
    case OpPut(key, data, mg, mr) => Put(s, hash, key, data, allowUpdate, mg, mr).slots
    case OpUpdate(p, data) => s[p := Used(s[p].key, data)]
    case OpRemove(key) => Remove(s, hash, key).slots
    case OpReset => Empty(|s|)
    case OpRealloc(memory) => Realloc(s, hash, memory).slots
    case OpRehash(memory) => Rehash(s, hash, memory).slots
  }

  // What the operation does to a plain finite map. The pair of a Put is in unless the table
  // refused an update or could not grow.
  function PlainStep<V>(m: map<string, V>, s: seq<Slot<V>>, hash: string -> nat, allowUpdate: bool, op: Op<V>): map<string, V>
    requires Allowed(s, op)
  {
    match op
    case OpPut(key, data, mg, mr) =>
      if (key in m && !allowUpdate) || (MustGrow(s) && (!mg || |s| >= SIZE_LIMIT)) then m else m[key := data]
    case OpUpdate(p, data) => m[s[p].key := data]
    case OpRemove(key) => m - {key}
    case OpReset => map[]
    case _ => m
  }

  lemma StepCorrect<V>(s: seq<Slot<V>>, hash: string -> nat, allowUpdate: bool, op: Op<V>)
    requires Inv(s, hash) && Allowed(s, op)
    ensures Inv(Step(s, hash, allowUpdate, op), hash)
    ensures Model(Step(s, hash, allowUpdate, op)) == PlainStep(Model(s), s, hash, allowUpdate, op)
  {
    hide Model, Put, Remove, Realloc, Rehash;
    match op {
      case OpPut(key, data, mg, mr) => PutInMap(s, hash, key, data, allowUpdate, mg, mr);
      case OpUpdate(p, data) => UpdateCorrect(s, hash, p, data);
      case OpRemove(key) => RemoveCorrect(s, hash, key);
      case OpReset => CountEmpty<V>(Empty(|s|));
      case OpRealloc(memory) => ReallocCorrect(s, hash, memory);
      case OpRehash(memory) => RehashCorrect(s, hash, memory);
    }
  }

  lemma PutInMap<V>(s: seq<Slot<V>>, hash: string -> nat, key: string, data: V, allowUpdate: bool, mg: bool, mr: bool)
    requires Inv(s, hash)
    ensures var t := Put(s, hash, key, data, allowUpdate, mg, mr).slots;
            Inv(t, hash) &&
            Model(t) == if (key in Model(s) && !allowUpdate) || (MustGrow(s) && (!mg || |s| >= SIZE_LIMIT)) then Model(s)
                        else Model(s)[key := data]
  {
    hide Model, Refill, Store;
    PutCorrect(s, hash, key, data, allowUpdate, mg, mr);
    ReallocCorrect(s, hash, mg);
    var t := if MustGrow(s) then Realloc(s, hash, mg).slots else s;
    if CountUsed(t) < |t| { StoreCorrect(t, hash, key, data, allowUpdate, mr); }
  }

  // A run: every operation is allowed where it is applied.
  ghost predicate Run<V>(s: seq<Slot<V>>, hash: string -> nat, allowUpdate: bool, ops: seq<Op<V>>,
                         m: map<string, V>, s': seq<Slot<V>>, m': map<string, V>)
    decreases |ops|
  {
    if ops == [] then s' == s && m' == m
    else
      Allowed(s, ops[0]) &&
      Run(Step(s, hash, allowUpdate, ops[0]), hash, allowUpdate, ops[1..], PlainStep(m, s, hash, allowUpdate, ops[0]), s', m')
  }

  // After any run that starts with an empty table, every lookup answers as the finite map does.
  lemma {:induction false} RunAgrees<V>(s: seq<Slot<V>>, hash: string -> nat, allowUpdate: bool, ops: seq<Op<V>>,
                                        m: map<string, V>, s': seq<Slot<V>>, m': map<string, V>, key: string)
    requires Inv(s, hash) && Model(s) == m && Run(s, hash, allowUpdate, ops, m, s', m')
    ensures Inv(s', hash) && Model(s') == m'
    ensures var p := Find(s', hash, key);
            if key in m' then 0 <= p < |s'| && s'[p].Used? && s'[p].key == key && s'[p].data == m'[key] else p == -1
    decreases |ops|
  {
    hide Model, Step, PlainStep, Find;
    if ops == [] {
      FindIsLookup(s, hash, key);
    } else {
      StepCorrect(s, hash, allowUpdate, ops[0]);
      RunAgrees(Step(s, hash, allowUpdate, ops[0]), hash, allowUpdate, ops[1..],
                PlainStep(m, s, hash, allowUpdate, ops[0]), s', m', key);
    }
  }
}
