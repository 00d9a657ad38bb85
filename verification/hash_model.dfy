/**
 What the chained hash of src/data/hash.c holds, bucket by bucket, and why it is a finite map.
 */
module HashModel {
  import opened Options

  const MODULES := 32

  datatype Pair<V> = Pair(value: V, key: int)

  // XHASH_MIX of the key cast to uint32_t.
  function Mix(key: int): (b: nat)
    ensures b < MODULES
  {
    MixBits((key % 0x1_0000_0000) as bv32) as nat
  }

  function MixBits(k: bv32): (b: bv32)
    ensures b < 32
  {
    (k ^ (k >> 8) ^ (k >> 16)) % 32
  }

  // ----- one bucket -----

  // Where a search for the key ends: at the first pair that has it.
  function IndexOf<V>(bucket: seq<Pair<V>>, key: int): (i: nat)
    ensures i <= |bucket| && (i < |bucket| ==> bucket[i].key == key)
    ensures forall k | 0 <= k < i :: bucket[k].key != key
  {
    if bucket == [] then 0 else if bucket[0].key == key then 0 else 1 + IndexOf(bucket[1..], key)
  }

  function Find<V>(bucket: seq<Pair<V>>, key: int): Option<V> {
    var i := IndexOf(bucket, key);
    if i < |bucket| then Some(bucket[i].value) else None
  }

  ghost predicate KeysDistinct<V>(pairs: seq<Pair<V>>) {
    forall i, j | 0 <= i < j < |pairs| :: pairs[i].key != pairs[j].key
  }

  function Removed<V>(bucket: seq<Pair<V>>, i: nat): (r: seq<Pair<V>>)
    requires i < |bucket|
    ensures |r| == |bucket| - 1
  {
    bucket[..i] + bucket[i + 1..]
  }

  lemma IndexOfIs<V>(bucket: seq<Pair<V>>, key: int, i: nat)
    requires KeysDistinct(bucket) && i < |bucket| && bucket[i].key == key
    ensures IndexOf(bucket, key) == i
  {
  }

  lemma FindIffHas<V>(bucket: seq<Pair<V>>, key: int, value: V)
    requires KeysDistinct(bucket)
    ensures Find(bucket, key) == Some(value) <==> Pair(value, key) in bucket
  {
    if Pair(value, key) in bucket {
      var i :| 0 <= i < |bucket| && bucket[i] == Pair(value, key);
      IndexOfIs(bucket, key, i);
    }
  }

  lemma FindPushed<V>(bucket: seq<Pair<V>>, pair: Pair<V>, key: int)
    ensures Find([pair] + bucket, key) == if key == pair.key then Some(pair.value) else Find(bucket, key)
  {
    assert ([pair] + bucket)[1..] == bucket;
  }

  lemma FindRemoved<V>(bucket: seq<Pair<V>>, i: nat, key: int)
    requires KeysDistinct(bucket) && i < |bucket|
    ensures KeysDistinct(Removed(bucket, i))
    ensures Find(Removed(bucket, i), key) == if key == bucket[i].key then None else Find(bucket, key)
  {
    var rest := Removed(bucket, i);
    forall k | 0 <= k < |rest| ensures rest[k] == bucket[if k < i then k else k + 1] {}
    var at := IndexOf(bucket, key);
    if at < |bucket| && at != i {
      IndexOfIs(rest, key, if at < i then at else at - 1);
    }
  }

  // ----- all buckets -----

  ghost predicate Ok<V>(buckets: seq<seq<Pair<V>>>) {
    |buckets| == MODULES && forall b | 0 <= b < MODULES :: BucketOk(buckets[b], b)
  }

  // Every pair is in the bucket of its key, and no key is there twice.
  ghost predicate BucketOk<V>(bucket: seq<Pair<V>>, b: nat) {
    KeysDistinct(bucket) && forall p | p in bucket :: Mix(p.key) == b
  }

  function Lookup<V>(buckets: seq<seq<Pair<V>>>, key: int): Option<V>
    requires |buckets| == MODULES
  {
    Find(buckets[Mix(key)], key)
  }

  function Insert<V>(buckets: seq<seq<Pair<V>>>, pair: Pair<V>): (r: seq<seq<Pair<V>>>)
    requires |buckets| == MODULES
    ensures |r| == MODULES
  {
    var b := Mix(pair.key);
    if Lookup(buckets, pair.key).Some? then buckets else buckets[b := [pair] + buckets[b]]
  }

  function Delete<V>(buckets: seq<seq<Pair<V>>>, key: int): (r: seq<seq<Pair<V>>>)
    requires |buckets| == MODULES
    ensures |r| == MODULES
  {
    var b := Mix(key);
    var i := IndexOf(buckets[b], key);
    if i < |buckets[b]| then buckets[b := Removed(buckets[b], i)] else buckets
  }

  // All pairs, in the order in which XHash_Iterate comes to them.
  function All<V>(buckets: seq<seq<Pair<V>>>): seq<Pair<V>> {
    if buckets == [] then [] else All(buckets[..|buckets| - 1]) + buckets[|buckets| - 1]
  }

  // ----- a finite map -----

  function Get<V>(m: map<int, V>, key: int): Option<V> { if key in m then Some(m[key]) else None }

  ghost predicate Agrees<V>(buckets: seq<seq<Pair<V>>>, m: map<int, V>)
    requires |buckets| == MODULES
  {
    && (forall key: int :: Lookup(buckets, key) == Get(m, key))
    && |All(buckets)| == |m|
  }

  lemma EmptyAgrees<V>(buckets: seq<seq<Pair<V>>>)
    requires |buckets| == MODULES && forall b | 0 <= b < MODULES :: buckets[b] == []
    ensures Ok(buckets) && Agrees(buckets, map[])
  {
    AllEmpty(buckets);
  }

  lemma {:induction false} AllEmpty<V>(buckets: seq<seq<Pair<V>>>)
    requires forall b | 0 <= b < |buckets| :: buckets[b] == []
    ensures All(buckets) == []
  {
    if buckets != [] { AllEmpty(buckets[..|buckets| - 1]); }
  }

  lemma {:induction false} AllLength<V>(buckets: seq<seq<Pair<V>>>, b: nat, bucket: seq<Pair<V>>)
    requires b < |buckets|
    ensures |All(buckets[b := bucket])| == |All(buckets)| - |buckets[b]| + |bucket|
  {
    var n := |buckets| - 1;
    var now := buckets[b := bucket];
    if b < n {
      assert now[..n] == buckets[..n][b := bucket];
      AllLength(buckets[..n], b, bucket);
    } else {
      assert now[..n] == buckets[..n];
    }
  }

  lemma InsertLookup<V>(buckets: seq<seq<Pair<V>>>, pair: Pair<V>, key: int)
    requires |buckets| == MODULES && Lookup(buckets, pair.key) == None
    ensures Lookup(Insert(buckets, pair), key) == if key == pair.key then Some(pair.value) else Lookup(buckets, key)
  {
    hide Mix, Find;
    if Mix(key) == Mix(pair.key) { FindPushed(buckets[Mix(key)], pair, key); }
  }

  lemma InsertOk<V>(buckets: seq<seq<Pair<V>>>, pair: Pair<V>)
    requires Ok(buckets)
    ensures Ok(Insert(buckets, pair))
    ensures Lookup(buckets, pair.key) == None ==> |All(Insert(buckets, pair))| == |All(buckets)| + 1
  {
    hide Mix, Find, BucketOk, All;
    var b := Mix(pair.key);
    if Lookup(buckets, pair.key) == None {
      NoneHasKey(buckets[b], pair.key);
      PushedOk(buckets[b], pair, b);
      AllLength(buckets, b, [pair] + buckets[b]);
    }
  }

  lemma InsertAgrees<V>(buckets: seq<seq<Pair<V>>>, pair: Pair<V>, m: map<int, V>)
    requires Ok(buckets) && Agrees(buckets, m)
    ensures Ok(Insert(buckets, pair))
    ensures Agrees(Insert(buckets, pair), if pair.key in m then m else m[pair.key := pair.value])
  {
    hide Lookup, All, BucketOk;
    InsertOk(buckets, pair);
    assert Lookup(buckets, pair.key) == Get(m, pair.key);
    hide Insert;
    if pair.key !in m {
      var m1 := m[pair.key := pair.value];
      OneMore(m, pair.key, pair.value);
      forall key: int ensures Lookup(Insert(buckets, pair), key) == Get(m1, key) {
        InsertLookup(buckets, pair, key);
        assert Lookup(buckets, key) == Get(m, key);
      }
    }
  }

  lemma OneMore<V>(m: map<int, V>, key: int, value: V)
    requires key !in m
    ensures |m[key := value]| == |m| + 1
  {
    assert m[key := value].Keys == m.Keys + {key};
  }

  lemma NoneHasKey<V>(bucket: seq<Pair<V>>, key: int)
    ensures Find(bucket, key) == None ==> forall k | 0 <= k < |bucket| :: bucket[k].key != key
  {
  }

  lemma PushedOk<V>(bucket: seq<Pair<V>>, pair: Pair<V>, b: nat)
    requires BucketOk(bucket, b) && Mix(pair.key) == b && forall k | 0 <= k < |bucket| :: bucket[k].key != pair.key
    ensures BucketOk([pair] + bucket, b)
  {
    hide Mix;
  }

  lemma DeleteLookup<V>(buckets: seq<seq<Pair<V>>>, key: int, other: int)
    requires Ok(buckets)
    ensures Lookup(Delete(buckets, key), other) == if other == key then None else Lookup(buckets, other)
  {
    hide Mix, Find, Removed;
    var b := Mix(key);
    assert BucketOk(buckets[b], b);
    var i := IndexOf(buckets[b], key);
    FoundIff(buckets[b], key);
    if i < |buckets[b]| && Mix(other) == b { FindRemoved(buckets[b], i, other); }
  }

  lemma DeleteOk<V>(buckets: seq<seq<Pair<V>>>, key: int)
    requires Ok(buckets)
    ensures Ok(Delete(buckets, key))
    ensures |All(Delete(buckets, key))| == |All(buckets)| - (if Lookup(buckets, key).Some? then 1 else 0)
  {
    hide Mix, Find, Removed, BucketOk, All;
    var b := Mix(key);
    var i := IndexOf(buckets[b], key);
    FoundIff(buckets[b], key);
    if i < |buckets[b]| {
      RemovedOk(buckets[b], i, b);
      AllLength(buckets, b, Removed(buckets[b], i));
    }
  }

  lemma DeleteAgrees<V>(buckets: seq<seq<Pair<V>>>, key: int, m: map<int, V>)
    requires Ok(buckets) && Agrees(buckets, m)
    ensures Ok(Delete(buckets, key)) && Agrees(Delete(buckets, key), m - {key})
  {
    DeleteOk(buckets, key);
    assert Lookup(buckets, key) == Get(m, key);
    hide Delete, Lookup, All, Ok;
    assert (m - {key}).Keys == m.Keys - {key} && |m - {key}| == |m| - (if key in m then 1 else 0);
    forall other: int ensures Lookup(Delete(buckets, key), other) == Get(m - {key}, other) {
      DeleteLookup(buckets, key, other);
      assert Lookup(buckets, other) == Get(m, other);
    }
  }

  lemma FoundIff<V>(bucket: seq<Pair<V>>, key: int)
    ensures Find(bucket, key).Some? <==> IndexOf(bucket, key) < |bucket|
  {
  }

  lemma RemovedOk<V>(bucket: seq<Pair<V>>, i: nat, b: nat)
    requires BucketOk(bucket, b) && i < |bucket|
    ensures BucketOk(Removed(bucket, i), b)
  {
    hide Mix;
    FindRemoved(bucket, i, bucket[i].key);
    forall p | p in Removed(bucket, i) ensures p in bucket {}
  }

  // ----- visiting -----

  lemma {:induction false} InAll<V>(buckets: seq<seq<Pair<V>>>, p: Pair<V>)
    ensures p in All(buckets) <==> exists b :: 0 <= b < |buckets| && p in buckets[b]
  {
    if buckets != [] {
      var n := |buckets| - 1;
      InAll(buckets[..n], p);
      if p in buckets[n] {
        assert p in All(buckets);
      } else if exists b :: 0 <= b < |buckets| && p in buckets[b] {
        var b :| 0 <= b < |buckets| && p in buckets[b];
        assert p in buckets[..n][b];
      }
      if p in All(buckets[..n]) {
        var b :| 0 <= b < n && p in buckets[..n][b];
        assert p in buckets[b];
      }
    }
  }

  lemma {:induction false} AllDistinct<V>(buckets: seq<seq<Pair<V>>>)
    requires forall b | 0 <= b < |buckets| :: BucketOk(buckets[b], b)
    ensures KeysDistinct(All(buckets))
  {
    hide Mix;
    if buckets != [] {
      var n := |buckets| - 1;
      AllDistinct(buckets[..n]);
      var front, last := All(buckets[..n]), buckets[n];
      assert BucketOk(last, n);
      forall i, j | 0 <= i < |front| && 0 <= j < |last| ensures front[i].key != last[j].key {
        InAll(buckets[..n], front[i]);
        var b :| 0 <= b < n && front[i] in buckets[..n][b];
        assert BucketOk(buckets[b], b) && last[j] in last;
      }
    }
  }

  // A whole iteration comes to each entry of the map exactly once, and to nothing else.
  lemma VisitsTheMap<V>(buckets: seq<seq<Pair<V>>>, m: map<int, V>)
    requires Ok(buckets) && Agrees(buckets, m)
    ensures KeysDistinct(All(buckets)) && |All(buckets)| == |m|
    ensures forall p: Pair<V> :: p in All(buckets) <==> p.key in m && m[p.key] == p.value
  {
    hide Mix, Find, All;
    AllDistinct(buckets);
    forall p: Pair<V> ensures p in All(buckets) <==> p.key in m && m[p.key] == p.value {
      InAll(buckets, p);
      var b := Mix(p.key);
      assert BucketOk(buckets[b], b);
      FindIffHas(buckets[b], p.key, p.value);
      assert Lookup(buckets, p.key) == Get(m, p.key);
      if exists c :: 0 <= c < |buckets| && p in buckets[c] {
        var c :| 0 <= c < |buckets| && p in buckets[c];
        assert BucketOk(buckets[c], c);
      }
    }
  }

  // ----- runs -----

  datatype Op<V> = Inserting(pair: Pair<V>) | Deleting(key: int)

  function Step<V>(buckets: seq<seq<Pair<V>>>, op: Op<V>): (r: seq<seq<Pair<V>>>)
    requires |buckets| == MODULES
    ensures |r| == MODULES
  {
    match op
    case Inserting(pair) => Insert(buckets, pair)
    case Deleting(key) => Delete(buckets, key)
  }

  function Run<V>(buckets: seq<seq<Pair<V>>>, ops: seq<Op<V>>): (r: seq<seq<Pair<V>>>)
    requires |buckets| == MODULES
    ensures |r| == MODULES
    decreases |ops|
  {
    if ops == [] then buckets else Run(Step(buckets, ops[0]), ops[1..])
  }

  function MapRun<V>(m: map<int, V>, ops: seq<Op<V>>): map<int, V>
    decreases |ops|
  {
    if ops == [] then m
    else
      var next := match ops[0]
        case Inserting(pair) => if pair.key in m then m else m[pair.key := pair.value]
        case Deleting(key) => m - {key};
      MapRun(next, ops[1..])
  }

  // After any run of inserts and deletes, lookups and the number of pairs are those of the map.
  lemma {:induction false} RunAgrees<V>(buckets: seq<seq<Pair<V>>>, m: map<int, V>, ops: seq<Op<V>>)
    requires Ok(buckets) && Agrees(buckets, m)
    ensures Ok(Run(buckets, ops)) && Agrees(Run(buckets, ops), MapRun(m, ops))
    decreases |ops|
  {
    hide BucketOk, Agrees, Insert, Delete;
    if ops != [] {
      match ops[0]
      case Inserting(pair) =>
        InsertAgrees(buckets, pair, m);
        RunAgrees(Insert(buckets, pair), if pair.key in m then m else m[pair.key := pair.value], ops[1..]);
      case Deleting(key) =>
        DeleteAgrees(buckets, key, m);
        RunAgrees(Delete(buckets, key), m - {key}, ops[1..]);
    }
  }
}
