/**
 What the array of src/data/array.c promises: order and permutation for its sort, the key for its
 searches, and the places of elements for insertion and removal.
 */
module ArrayModel {

  // ----- order -----

  // The sign of a comparator is that of a total preorder.
  ghost predicate TotalPreorder<T(!new)>(compare: (T, T) -> int) {
    && (forall x, y :: compare(x, y) < 0 <==> compare(y, x) > 0)
    && (forall x, y, z :: compare(x, y) <= 0 && compare(y, z) <= 0 ==> compare(x, z) <= 0)
  }

  // So it is reflexive.
  lemma Reflexive<T(!new)>(compare: (T, T) -> int, x: T)
    requires TotalPreorder(compare)
    ensures compare(x, x) == 0
  {
  }

  lemma Opposite<T(!new)>(compare: (T, T) -> int, x: T, y: T)
    requires TotalPreorder(compare)
    ensures compare(x, y) < 0 <==> compare(y, x) > 0
    ensures compare(x, y) == 0 <==> compare(y, x) == 0
  {
    assert compare(x, y) < 0 <==> compare(y, x) > 0;
    assert compare(y, x) < 0 <==> compare(x, y) > 0;
  }

  lemma Transitive<T(!new)>(compare: (T, T) -> int, x: T, y: T, z: T)
    requires TotalPreorder(compare) && compare(x, y) <= 0 && compare(y, z) <= 0
    ensures compare(x, z) <= 0
  {
  }

  ghost predicate Sorted<T>(s: seq<T>, compare: (T, T) -> int) {
    forall i, j | 0 <= i < j < |s| :: compare(s[i], s[j]) <= 0
  }

  // Nothing in s comes before x.
  ghost predicate Least<T>(x: T, s: seq<T>, compare: (T, T) -> int) {
    forall i | 0 <= i < |s| :: compare(x, s[i]) <= 0
  }

  ghost predicate Permutation<T>(s: seq<T>, t: seq<T>) { multiset(s) == multiset(t) }

  function Swapped<T>(s: seq<T>, i: nat, j: nat): (r: seq<T>)
    requires i < |s| && j < |s|
    ensures |r| == |s|
  {
    s[i := s[j]][j := s[i]]
  }

  lemma SwappedPlaces<T>(s: seq<T>, i: nat, j: nat)
    requires i < |s| && j < |s|
    ensures Swapped(s, i, j)[i] == s[j] && Swapped(s, i, j)[j] == s[i]
  {
  }

  lemma SwapPermutes<T>(s: seq<T>, i: nat, j: nat)
    requires i < |s| && j < |s|
    ensures Permutation(Swapped(s, i, j), s)
  {
  }

  // A swap inside a range permutes the range.
  lemma SwapInRange<T>(s: seq<T>, lo: nat, hi: nat, i: nat, j: nat)
    requires lo <= i < hi <= |s| && lo <= j < hi
    ensures Swapped(s, i, j)[lo..hi] == Swapped(s[lo..hi], i - lo, j - lo)
    ensures Swapped(s, i, j)[..lo] == s[..lo] && Swapped(s, i, j)[hi..] == s[hi..]
    ensures Permutation(Swapped(s, i, j)[lo..hi], s[lo..hi])
  {
    assert Swapped(s, i, j)[lo..hi] == Swapped(s[lo..hi], i - lo, j - lo);
    SwapPermutes(s[lo..hi], i - lo, j - lo);
  }

  lemma LeastOfPermutation<T>(x: T, s: seq<T>, t: seq<T>, compare: (T, T) -> int)
    requires Least(x, s, compare) && Permutation(s, t)
    ensures Least(x, t, compare)
  {
    forall i | 0 <= i < |t| ensures compare(x, t[i]) <= 0 {
      assert t[i] in multiset(t);
      assert t[i] in multiset(s);
    }
  }

  // The minimum first and the rest sorted is sorted.
  lemma SortedFrom<T>(x: T, rest: seq<T>, compare: (T, T) -> int)
    requires Least(x, rest, compare) && Sorted(rest, compare)
    ensures Sorted([x] + rest, compare)
  {
  }

  // ----- the partition loop -----

  // Whatever lies above `finish` is no less than the pivot's element or the one at `finish`.
  ghost predicate Bounded<T>(s: seq<T>, compare: (T, T) -> int, start: nat, finish: nat, last: nat)
    requires start <= finish <= last < |s|
  {
    forall k | finish < k <= last :: compare(s[start], s[k]) <= 0 || compare(s[finish], s[k]) <= 0
  }

  lemma BoundedAtFirst<T>(s: seq<T>, compare: (T, T) -> int, start: nat, last: nat)
    requires start <= last < |s|
    ensures Bounded(s, compare, start, last, last)
  {
  }

  // The loop that moves nFinish down.
  lemma MovesDown<T(!new)>(s: seq<T>, compare: (T, T) -> int, start: nat, finish: nat, last: nat)
    requires TotalPreorder(compare) && start < finish <= last < |s| && Bounded(s, compare, start, finish, last)
    requires compare(s[finish], s[start]) > 0
    ensures Bounded(s, compare, start, finish - 1, last)
  {
    forall k | finish - 1 < k <= last ensures compare(s[start], s[k]) <= 0 {
      assert compare(s[start], s[finish]) < 0;
      if k > finish && compare(s[finish], s[k]) <= 0 { Transitive(compare, s[start], s[finish], s[k]); }
    }
  }

  // When it stops, the element at nFinish is least from there on.
  lemma Stopped<T(!new)>(s: seq<T>, compare: (T, T) -> int, start: nat, finish: nat, last: nat)
    requires TotalPreorder(compare) && start <= finish <= last < |s| && Bounded(s, compare, start, finish, last)
    requires compare(s[finish], s[start]) <= 0
    ensures forall k | finish <= k <= last :: compare(s[finish], s[k]) <= 0
  {
    forall k | finish <= k <= last ensures compare(s[finish], s[k]) <= 0 {
      Reflexive(compare, s[finish]);
      if k > finish && compare(s[start], s[k]) <= 0 { Transitive(compare, s[finish], s[start], s[k]); }
    }
  }

  // It was equal to the pivot's, so nFinish moved down once more and the two places are swapped.
  lemma SwapsEqual<T(!new)>(s: seq<T>, compare: (T, T) -> int, start: nat, finish: nat, last: nat)
    requires TotalPreorder(compare) && start + 1 < finish <= last < |s| && compare(s[start], s[finish]) == 0
    requires forall k | finish <= k <= last :: compare(s[finish], s[k]) <= 0
    ensures Bounded(Swapped(s, start, finish - 1), compare, start, finish - 1, last)
  {
    var t := Swapped(s, start, finish - 1);
    forall k | finish - 1 < k <= last ensures compare(t[finish - 1], t[k]) <= 0 {
      Transitive(compare, s[start], s[finish], s[k]);
    }
  }

  // It was less than the pivot's.
  lemma SwapsLess<T(!new)>(s: seq<T>, compare: (T, T) -> int, start: nat, finish: nat, last: nat)
    requires start < finish <= last < |s| && forall k | finish <= k <= last :: compare(s[finish], s[k]) <= 0
    ensures Bounded(Swapped(s, start, finish), compare, start, finish, last)
  {
    var t := Swapped(s, start, finish);
    forall k | finish < k <= last ensures compare(t[start], t[k]) <= 0 {}
  }

  // At the end the pivot's element is least.
  lemma PivotLeast<T(!new)>(s: seq<T>, compare: (T, T) -> int, start: nat, finish: nat, last: nat)
    requires TotalPreorder(compare) && start <= finish <= start + 1 && finish <= last < |s| && compare(s[start], s[finish]) == 0
    requires forall k | finish <= k <= last :: compare(s[finish], s[k]) <= 0
    ensures Least(s[start], s[start + 1..last + 1], compare)
  {
    forall k | start < k <= last ensures compare(s[start], s[k]) <= 0 {
      Transitive(compare, s[start], s[finish], s[k]);
    }
  }

  // ----- keys -----

  datatype Item = Item(key: nat, size: nat, data: int)

  // XArray_CompareKey and XArray_CompareSize: differences of ints, for values below 2^31.
  function CompareKey(x: Item, y: Item): int { x.key - y.key }
  function CompareSize(x: Item, y: Item): int { x.size - y.size }

  lemma KeysOrdered()
    ensures TotalPreorder(CompareKey) && TotalPreorder(CompareSize)
  {
  }

  ghost predicate HasKey(s: seq<Item>, key: nat) { exists i :: 0 <= i < |s| && s[i].key == key }

  // What a search may answer.
  ghost predicate Finds(s: seq<Item>, key: nat, r: int) {
    if HasKey(s, key) then 0 <= r < |s| && s[r].key == key else r == -1
  }

  // ----- places -----

  function Inserted<T>(s: seq<T>, i: nat, x: T): (r: seq<T>)
    requires i <= |s|
    ensures |r| == |s| + 1
  {
    s[..i] + [x] + s[i..]
  }

  function Removed<T>(s: seq<T>, i: nat): (r: seq<T>)
    requires i < |s|
    ensures |r| == |s| - 1
  {
    s[..i] + s[i + 1..]
  }

  lemma RemoveUndoesInsert<T>(s: seq<T>, i: nat, x: T)
    requires i <= |s|
    ensures Inserted(s, i, x)[i] == x && Removed(Inserted(s, i, x), i) == s
  {
  }

  lemma InsertUndoesRemove<T>(s: seq<T>, i: nat)
    requires i < |s|
    ensures Inserted(Removed(s, i), i, s[i]) == s
  {
  }
}
