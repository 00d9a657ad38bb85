/**
 The pointer array of src/data/array.c: elements in the slots below nUsed, null pointers above;
 grown and shrunk by reallocation, shifted and sorted in place.
 */
module Arrays {
  import opened Options
  import opened ArrayModel

  ghost predicate Filled(slots: seq<Option<Item>>, used: nat) {
    && used <= |slots|
    && (forall i | 0 <= i < used :: slots[i].Some?)
    && (forall i | used <= i < |slots| :: slots[i] == None)
  }

  ghost function Values(slots: seq<Option<Item>>, used: nat): (r: seq<Item>)
    requires Filled(slots, used)
    ensures |r| == used
  {
    seq(used, i requires 0 <= i < used => slots[i].value)
  }

  class XArray {
    var data: array<Option<Item>>   // pData and nSize; of length 0 for a null pointer
    var used: nat                   // nUsed
    var fixed: bool                 // nFixed

    ghost predicate Valid()
      reads this, data
    {
      Filled(data[..], used)
    }

    ghost function Contents(): seq<Item>
      requires Valid()
      reads this, data
    {
      Values(data[..], used)
    }

    constructor (size: nat, fixed: bool)
      ensures Valid() && Contents() == [] && data.Length == size && this.fixed == fixed && fresh(data)
    {
      this.data := new Option<Item>[size](_ => None);
      this.used, this.fixed := 0, fixed;
    }

    // XArray_Swap
    method Swap(i: nat, j: nat)
      requires Valid()
      modifies data
      ensures Valid()
      ensures Contents() == if i < used && j < used then Swapped(old(Contents()), i, j) else old(Contents())
    {
      if i >= used || j >= used { return; }
      var first := data[i];
      data[i] := data[j];
      data[j] := first;
    }

    // The loop of XArray_Partitioning that moves nFinish down.
    method MoveDown(compare: (Item, Item) -> int, pivot: nat, from: nat, ghost last: nat) returns (finish: nat)
      requires Valid() && pivot <= from <= last < used && TotalPreorder(compare)
      requires Bounded(Contents(), compare, pivot, from, last)
      ensures pivot <= finish <= from && Bounded(Contents(), compare, pivot, finish, last)
      ensures compare(Contents()[finish], Contents()[pivot]) <= 0
      ensures finish < from ==> compare(Contents()[from], Contents()[pivot]) > 0
    {
      hide TotalPreorder, Bounded;
      finish := from;
      ghost var c := Contents();
      Reflexive(compare, c[pivot]);
      while compare(data[finish].value, data[pivot].value) > 0
        invariant pivot <= finish <= from && Bounded(c, compare, pivot, finish, last)
        invariant finish < from ==> compare(c[from], c[pivot]) > 0
        decreases finish - pivot
      {
        MovesDown(c, compare, pivot, finish, last);
        finish := finish - 1;
      }
    }

    // The first loop of the source, which moves nStart on while its element comes before the
    // pivot's, never runs: nStart is the pivot's place from the start and only that loop would
    // change it. Swaps change which element is there, and so the pivot.
    method Partitioning(compare: (Item, Item) -> int, start: nat, last: nat) returns (r: nat)
      requires Valid() && start < last < used && TotalPreorder(compare)
      modifies data
      ensures Valid() && r == start
      ensures Outside(Contents(), old(Contents()), start, last + 1)
      ensures Least(Contents()[start], Contents()[start + 1..last + 1], compare)
    {
      hide TotalPreorder, Bounded, Outside, Least, Permutation, Swapped;
      var pivot, finish := start, last;
      SameRange(Contents(), start, last + 1);
      BoundedAtFirst(Contents(), compare, start, last);
      while true
        invariant Valid() && used == old(used) && start < finish <= last
        invariant Outside(Contents(), old(Contents()), start, last + 1)
        invariant Bounded(Contents(), compare, start, finish, last)
        decreases finish, if compare(Contents()[finish], Contents()[start]) < 0 then 1 else 0
      {
        ghost var c := Contents();
        finish := MoveDown(compare, pivot, finish, last);
        Stopped(c, compare, start, finish, last);
        assert data[start].value == c[start] && data[finish].value == c[finish];
        ghost var stopped := finish;
        Opposite(compare, c[start], c[stopped]);
        Reflexive(compare, c[start]);
        var equal := compare(data[start].value, data[finish].value) == 0;
        if equal { finish := finish - 1; }
        if start >= finish {
          PivotLeast(c, compare, start, stopped, last);
          break;
        }
        if equal { SwapsEqual(c, compare, start, stopped, last); } else { SwapsLess(c, compare, start, stopped, last); }
        SwapOutside(c, old(Contents()), start, last + 1, start, finish);
        Swap(start, finish);
        SwappedPlaces(c, start, finish);
      }
      r := start;
    }

    method QuickSort(compare: (Item, Item) -> int, start: int, last: int)
      requires Valid() && 0 <= start && -1 <= last < used && start <= last + 1 && TotalPreorder(compare)
      modifies data
      ensures Valid() && used == old(used)
      ensures Outside(Contents(), old(Contents()), start, last + 1)
      ensures Sorted(Contents()[start..last + 1], compare)
      decreases last - start
    {
      hide TotalPreorder, Outside, Least, Sorted, Permutation;
      SameRange(Contents(), start, last + 1);
      SortedShort(Contents()[start..last + 1], compare);
      if start < last {
        ghost var s := Contents();
        var r := Partitioning(compare, start, last);
        ghost var t := Contents();
        QuickSort(compare, start, r);
        OutsideOne(Contents(), t, start);
        QuickSort(compare, r + 1, last);
        SortedWhole(Contents(), t, s, compare, start, last);
      }
    }

    method Sort(compare: (Item, Item) -> int)
      requires Valid() && TotalPreorder(compare)
      modifies data
      ensures Valid() && used == old(used)
      ensures Sorted(Contents(), compare) && Permutation(Contents(), old(Contents()))
    {
      hide TotalPreorder;
      if used == 0 { return; }
      ghost var s := Contents();
      QuickSort(compare, 0, used - 1);
      assert Contents()[0..used] == Contents() && s[0..used] == s;
    }

    // XArray_SortBy: XARRAY_SORTBY_SIZE or XARRAY_SORTBY_KEY.
    method SortBy(sortBy: int)
      requires Valid()
      modifies data
      ensures Valid() && Permutation(Contents(), old(Contents()))
      ensures sortBy == 0 ==> Sorted(Contents(), CompareKey)
      ensures sortBy == 1 ==> Sorted(Contents(), CompareSize)
    {
      KeysOrdered();
      hide TotalPreorder, Sorted;
      if sortBy == 1 { Sort(CompareSize); } else if sortBy == 0 { Sort(CompareKey); }
    }

    // ----- searches -----

    method LinearSearch(key: nat) returns (r: int)
      requires Valid()
      ensures Finds(Contents(), key, r)
      ensures r >= 0 ==> forall i | 0 <= i < r :: Contents()[i].key != key
    {
      for i := 0 to used
        invariant forall k | 0 <= k < i :: Contents()[k].key != key
      {
        assert data[i].value == Contents()[i];
        if data[i].value.key == key { return i; }
      }
      r := -1;
    }

    // The last element is replaced by the key for the time of the search.
    method SentinelSearch(key: nat) returns (r: int)
      requires Valid()
      modifies data
      ensures Valid() && data[..] == old(data[..])
      ensures Finds(Contents(), key, r)
    {
      if used == 0 { return -1; }
      var last := used - 1;
      var pLast := data[last];
      ghost var c := Contents();
      assert pLast.value == c[last];
      if pLast.value.key == key { return last; }
      data[last] := Some(Item(key, 0, 0));
      var i := 0;
      while data[i].value.key != key
        invariant 0 <= i <= last && data == old(data) && used == old(used)
        invariant data[last] == Some(Item(key, 0, 0)) && forall k | 0 <= k < data.Length && k != last :: data[k] == old(data[k])
        invariant forall k | 0 <= k < i :: c[k].key != key
        decreases last - i
      {
        assert i < last ==> data[i].value == c[i];
        i := i + 1;
      }
      assert i < last ==> data[i].value == c[i];
      data[last] := pLast;
      assert data[..] == old(data[..]);
      r := if i < last then i else -1;
    }

    method DoubleSearch(key: nat) returns (r: int)
      requires Valid()
      ensures Finds(Contents(), key, r)
    {
      if used == 0 { return -1; }
      var front, back := 0, used - 1;
      while front <= back
        invariant 0 <= front && back == used - 1 - front
        invariant forall k | 0 <= k < used && (k < front || k > back) :: Contents()[k].key != key
        decreases back - front + 1
      {
        assert data[front].value == Contents()[front] && data[back].value == Contents()[back];
        if data[front].value.key == key { return front; }
        if data[back].value.key == key { return back; }
        front := front + 1;
        back := back - 1;
      }
      r := -1;
    }

    // On an array sorted by key, as good as a linear scan.
    method BinarySearch(key: nat) returns (r: int)
      requires Valid() && Sorted(Contents(), CompareKey)
      ensures Finds(Contents(), key, r)
    {
      if used == 0 { return -1; }
      ghost var c := Contents();
      var left, right := 0, used - 1;
      assert data[left].value == c[left];
      if data[left].value.key == key { return left; }
      while left <= right
        invariant 0 <= left && right < used && Contents() == c
        invariant forall k | 0 <= k < used && (k < left || k > right) :: c[k].key != key
        decreases right - left + 1
      {
        var middle := left + (right - left) / 2;
        assert data[middle].value == c[middle];
        if data[middle].value.key < key {
          assert forall k | 0 <= k < middle :: CompareKey(c[k], c[middle]) <= 0;
          left := middle + 1;
        } else if data[middle].value.key == key {
          return middle;
        } else {
          assert forall k | middle < k < used :: CompareKey(c[middle], c[k]) <= 0;
          right := middle - 1;
        }
      }
      r := -1;
    }

    // ----- growing and shrinking -----

    // Twice the slots when all are used, half when less than a quarter is; the quotient of the
    // source is a comparison of products here.
    method Realloc() returns (size: nat)
      requires Valid()
      modifies this`data
      ensures Valid() && Contents() == old(Contents()) && size == data.Length
      ensures data.Length == if fixed || used == 0 then old(data.Length)
                             else if used == old(data.Length) then 2 * old(data.Length)
                             else if 4 * used < old(data.Length) then old(data.Length) / 2 else old(data.Length)
      ensures data != old(data) ==> fresh(data)
    {
      if fixed { return data.Length; }
      var n := 0;
      if used > 0 && used == data.Length { n := data.Length * 2; }
      else if used > 0 && 4 * used < data.Length { n := data.Length / 2; }
      if n > 0 {
        ghost var c := Contents();
        var moved := new Option<Item>[n](_ => None);
        for k := 0 to used
          invariant unchanged(this) && unchanged(data) && fresh(moved) && moved.Length == n
          invariant forall m | 0 <= m < n :: moved[m] == if m < k then data[m] else None
        {
          moved[k] := data[k];
        }
        data := moved;
        assert Contents() == c;
      }
      size := data.Length;
    }

    method CheckSpace() returns (ok: bool)
      requires Valid()
      modifies this`data, this`fixed
      ensures Valid() && Contents() == old(Contents())
      ensures ok <==> used < data.Length
      ensures ok <==> old(data.Length == 0 || used < data.Length || !fixed)
      ensures data != old(data) ==> fresh(data)
      ensures old(data.Length) > 0 ==> fixed == old(fixed)
    {
      if data.Length == 0 {
        // XArray_Init with XARRAY_INITIAL_SIZE, no longer fixed.
        data := new Option<Item>[8](_ => None);
        fixed := false;
      } else if used >= data.Length {
        var size := Realloc();
      }
      ok := used < data.Length;
    }

    method Add(x: Item) returns (r: int)
      requires Valid()
      modifies this, data
      ensures Valid()
      ensures var room := old(data.Length == 0 || used < data.Length || !fixed);
        Contents() == (if room then old(Contents()) + [x] else old(Contents())) && r == if room then |old(Contents())| else -1
      ensures data != old(data) ==> fresh(data)
    {
      var ok := CheckSpace();
      if !ok { return -1; }
      ghost var c := Contents();
      data[used] := Some(x);
      used := used + 1;
      assert Contents() == c + [x];
      r := used - 1;
    }

    // The element there and all after it move up by one, each handed on to the next slot; the
    // last is left over.
    method HandOn(i: nat, x: Item) returns (held: Option<Item>)
      requires i < used <= data.Length
      modifies data
      ensures HandedOn(old(data[..]), data[..], used, i, x) && held == old(data[used - 1])
    {
      ghost var was := data[..];
      held := data[i];
      data[i] := Some(x);
      var k := i + 1;
      while k < used
        invariant i < k <= used && held == was[k - 1]
        invariant forall m | 0 <= m < |was| && !(i <= m < k) :: data[m] == was[m]
        invariant forall m | i <= m < k :: data[m] == if m == i then Some(x) else was[m - 1]
      {
        var next := data[k];
        data[k] := held;
        held := next;
        k := k + 1;
      }
    }

    method InsertAt(i: nat, x: Item)
      requires Valid() && i < used < data.Length
      modifies this, data
      ensures Valid() && Contents() == Inserted(old(Contents()), i, x) && (data == old(data) || fresh(data))
    {
      hide HandedOn, Inserted, Values;
      ghost var was := data[..];
      var held := HandOn(i, x);
      InsertedIs(was, data[..], used, i, x);
      var r := Add(held.value);
    }

    method Stray(i: nat, x: Item)
      requires Valid() && i >= used
      modifies data
      ensures if i < data.Length then data[..] == old(data[..])[i := Some(x)] && !Valid() && data[..][i := None] == old(data[..])
              else Valid() && data[..] == old(data[..])
    {
      ghost var was := data[..];
      if i < data.Length {
        data[i] := Some(x);
        assert data[..][i := None] == was;
      }
    }

    // Above the elements the source stores x in an empty slot, which is not counted, and fails.
    method Insert(i: nat, x: Item) returns (ok: bool)
      requires Valid()
      modifies this, data
      ensures var room := old(data.Length == 0 || used < data.Length || !fixed);
        (ok <==> room && i < old(used)) &&
        (Valid() <==> !(room && old(used) <= i < data.Length)) &&
        (Valid() ==> Contents() == if ok then Inserted(old(Contents()), i, x) else old(Contents())) &&
        (!Valid() ==> used == old(used) && i < data.Length && data[i] == Some(x) && Filled(data[..][i := None], used) &&
                      Values(data[..][i := None], used) == old(Contents()))
      ensures data != old(data) ==> fresh(data)
    {
      ok := CheckSpace();
      if !ok { return; }
      if i >= used {
        Stray(i, x);
        return false;
      }
      InsertAt(i, x);
    }

    method Remove(i: nat) returns (x: Option<Item>)
      requires Valid()
      modifies this, data
      ensures Valid() && (x.Some? <==> i < old(used))
      ensures i < old(used) ==> x == Some(old(Contents())[i]) && Contents() == ArrayModel.Removed(old(Contents()), i)
      ensures i >= old(used) ==> unchanged(this) && unchanged(data)
    {
      if i >= data.Length || data[i] == None { return None; }
      ghost var c, was := Contents(), data[..];
      x := data[i];
      assert x == Some(c[i]);
      var k := i;
      while k + 1 < used
        invariant i <= k < used == old(used) && data == old(data)
        invariant forall m | 0 <= m < |was| && !(i <= m < k) :: data[m] == was[m]
        invariant forall m | i <= m < k :: data[m] == was[m + 1]
      {
        data[k] := data[k + 1];
        k := k + 1;
      }
      used := used - 1;
      data[used] := None;
      assert Contents() == ArrayModel.Removed(c, i);
      var size := Realloc();
    }
  }

  // t is s with a range permuted.
  ghost predicate Outside(t: seq<Item>, s: seq<Item>, lo: nat, hi: nat)
    requires lo <= hi <= |s|
  {
    |t| == |s| && t[..lo] == s[..lo] && t[hi..] == s[hi..] && Permutation(t[lo..hi], s[lo..hi])
  }

  lemma SameRange(s: seq<Item>, lo: nat, hi: nat)
    requires lo <= hi <= |s|
    ensures Outside(s, s, lo, hi)
  {
  }

  lemma SwapOutside(t: seq<Item>, s: seq<Item>, lo: nat, hi: nat, i: nat, j: nat)
    requires lo <= i < hi <= |s| && lo <= j < hi && Outside(t, s, lo, hi)
    ensures Outside(Swapped(t, i, j), s, lo, hi)
  {
    SwapInRange(t, lo, hi, i, j);
  }

  lemma OutsideOne(t: seq<Item>, s: seq<Item>, i: nat)
    requires i < |s| && Outside(t, s, i, i + 1)
    ensures t == s
  {
    assert t[i..i + 1] == [t[i]] && s[i..i + 1] == [s[i]];
    assert t[i] in multiset(s[i..i + 1]);
    assert t == t[..i] + t[i..i + 1] + t[i + 1..];
    assert s == s[..i] + s[i..i + 1] + s[i + 1..];
  }

  lemma SortedShort(s: seq<Item>, compare: (Item, Item) -> int)
    ensures |s| <= 1 ==> Sorted(s, compare)
  {
  }

  // The least element first and the rest, permuted, sorted: the whole range is sorted.
  lemma SortedWhole(u: seq<Item>, t: seq<Item>, s: seq<Item>, compare: (Item, Item) -> int, start: nat, last: nat)
    requires start < last < |s| && Outside(t, s, start, last + 1) && Outside(u, t, start + 1, last + 1)
    requires Least(t[start], t[start + 1..last + 1], compare) && Sorted(u[start + 1..last + 1], compare)
    ensures Outside(u, s, start, last + 1) && Sorted(u[start..last + 1], compare)
  {
    hide Least, Sorted;
    assert u[start] == u[..start + 1][start] == t[start];
    assert u[start..last + 1] == [u[start]] + u[start + 1..last + 1];
    assert t[start..last + 1] == [t[start]] + t[start + 1..last + 1];
    assert u[..start] == u[..start + 1][..start] == t[..start];
    LeastOfPermutation(t[start], t[start + 1..last + 1], u[start + 1..last + 1], compare);
    SortedFrom(u[start], u[start + 1..last + 1], compare);
  }

  // The places after the loop of XArray_Insert, with the last element added behind them.
  ghost predicate HandedOn(was: seq<Option<Item>>, now: seq<Option<Item>>, used: nat, i: nat, x: Item) {
    && |now| == |was| && i < used <= |was|
    && (forall m | 0 <= m < |was| && !(i <= m < used) :: now[m] == was[m])
    && (forall m | i <= m < used :: now[m] == if m == i then Some(x) else was[m - 1])
  }

  lemma InsertedIs(was: seq<Option<Item>>, now: seq<Option<Item>>, used: nat, i: nat, x: Item)
    requires Filled(was, used) && HandedOn(was, now, used, i, x)
    ensures Filled(now, used) && was[used - 1].Some?
    ensures Values(now, used) + [was[used - 1].value] == Inserted(Values(was, used), i, x)
  {
  }
}
