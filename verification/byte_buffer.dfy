/**
 The growing byte buffer of src/data/buf.c: an allocation of nSize bytes of which the first nUsed
 are the contents, kept followed by a 0.
 */
module ByteBuffers {
  type Bytes = seq<bv8>

  // What is left when n bytes from `at` on are cut out of the contents, as far as there are any.
  function Cut(b: Bytes, at: nat, n: nat): (r: Bytes)
    ensures |r| <= |b|
  {
    if at >= |b| then b else if at + n >= |b| then b[..at] else b[..at] + b[at + n..]
  }

  lemma CutIs(b: Bytes, memory: Bytes, at: nat, n: nat)
    requires at + n < |b| <= |memory| && memory[..|b|] == b
    ensures Cut(b, at, n) == memory[..at] + memory[at + n..at + n + (|b| - at - n)]
  {
  }

  class ByteBuffer {
    var data: array?<bv8>
    var size: nat           // nSize
    var used: nat           // nUsed
    var fast: bool          // nFast

    // A buffer that owns its memory, or has none.
    ghost predicate Valid()
      reads this, data
    {
      && (data == null ==> size == 0 && used == 0)
      && (data != null ==> 0 < size == data.Length && used < size)
    }

    ghost function Contents(): Bytes
      requires Valid()
      reads this, data
    {
      if data == null then [] else data[..used]
    }

    constructor (fast: bool)
      ensures Valid() && Contents() == [] && this.fast == fast && data == null
    {
      this.fast, size, used, data := fast, 0, 0, null;
    }

    method Clear()
      requires Valid()
      modifies this
      ensures Valid() && Contents() == [] && data == null && fast == old(fast)
    {
      size, used, data := 0, 0, null;
    }

    // realloc keeps what fits; the contents are cut to leave room for the 0.
    method Resize(n: nat)
      requires Valid()
      modifies this
      ensures Valid() && size == n && fast == old(fast)
      ensures Contents() == if n == 0 then [] else if |old(Contents())| >= n then old(Contents())[..n - 1] else old(Contents())
      ensures data != null ==> fresh(data)
    {
      if n == 0 {
        Clear();
        return;
      }
      var moved := new bv8[n](_ => 0);
      if data == null {
        data, size, used := moved, n, 0;
        return;
      }
      var from: array<bv8> := data;
      var keep := if size < n then size else n;
      for i := 0 to keep
        invariant unchanged(this) && moved[..i] == from[..i]
      {
        moved[i] := from[i];
      }
      used := if used >= n then n - 1 else used;
      assert moved[..used] == moved[..keep][..used] == from[..used];
      data, size := moved, n;
      if used < n { data[used] := 0; }
    }

    method Reserve(n: nat)
      requires Valid()
      modifies this
      ensures Valid() && Contents() == old(Contents()) && fast == old(fast) && used == old(used)
      ensures used + n <= size && (data != null && data != old(data) ==> fresh(data))
    {
      var newSize := used + n;
      if newSize <= size { return; }
      if fast { newSize := newSize * 2; }
      Resize(newSize);
    }

    // Bytes copied over the memory from `at` on.
    method CopyIn(at: nat, bytes: Bytes)
      requires data != null && at + |bytes| <= data.Length
      modifies data
      ensures data[..] == old(data[..at]) + bytes + old(data[at + |bytes|..])
    {
      for i := 0 to |bytes|
        invariant data[..] == old(data[..at]) + bytes[..i] + old(data[at + i..])
      {
        ghost var before := data[..];
        data[at + i] := bytes[i];
        assert data[..] == before[at + i := bytes[i]];
      }
    }

    method Add(bytes: Bytes) returns (r: int)
      requires Valid()
      modifies this, data
      ensures Valid() && Contents() == old(Contents()) + bytes && fast == old(fast)
      ensures r == if bytes == [] then 0 else |Contents()|
      ensures data != null && data != old(data) ==> fresh(data)
      ensures bytes != [] ==> data != null && data[used] == 0
    {
      if |bytes| == 0 { return 0; }
      Reserve(|bytes| + 1);
      ghost var before := Contents();
      CopyIn(used, bytes);
      used := used + |bytes|;
      data[used] := 0;
      r := used;
    }

    // memmove within the memory, towards its end.
    method MoveUp(at: nat, n: nat, count: nat)
      requires data != null && at + n + count <= data.Length
      modifies data
      ensures data[..at] == old(data[..at]) && data[at + n..at + n + count] == old(data[at..at + count])
    {
      ghost var was := data[..];
      var i := count;
      while i > 0
        invariant 0 <= i <= count
        invariant forall k | 0 <= k < at + n + i :: data[k] == was[k]
        invariant forall k | at + n + i <= k < at + n + count :: data[k] == was[k - n]
      {
        i := i - 1;
        data[at + n + i] := data[at + i];
      }
    }

    method Insert(at: nat, bytes: Bytes) returns (r: int)
      requires Valid()
      modifies this, data
      ensures Valid() && fast == old(fast)
      ensures Contents() == if at >= |old(Contents())| then old(Contents()) + bytes
                            else old(Contents())[..at] + bytes + old(Contents())[at..]
      ensures at < |old(Contents())| || bytes != [] ==> r == |Contents()|
    {
      if at >= used {
        r := Add(bytes);
        return;
      }
      Reserve(|bytes| + 1);
      ghost var before := Contents();
      OpenGap(at, bytes, used - at);
      used := used + |bytes|;
      data[used] := 0;
      assert data[..used] == before[..at] + bytes + before[at..];
      r := used;
    }

    method OpenGap(at: nat, bytes: Bytes, tail: nat)
      requires data != null && at + |bytes| + tail <= data.Length
      modifies data
      ensures data[..at + |bytes| + tail] == old(data[..at]) + bytes + old(data[at..at + tail])
    {
      MoveUp(at, |bytes|, tail);
      ghost var moved := data[..];
      CopyIn(at, bytes);
      assert data[..at + |bytes| + tail] == moved[..at] + bytes + moved[at + |bytes|..at + |bytes| + tail];
    }

    method Remove(at: nat, n: nat) returns (r: nat)
      requires Valid()
      modifies this`used, data
      ensures Valid() && Contents() == (if n == 0 then old(Contents()) else Cut(old(Contents()), at, n))
      ensures r == if n == 0 || at >= old(used) then 0
                   else if at + n >= old(used) then at else n
    {
      if n == 0 || at >= used { return 0; }
      var count := if at + n > used then used - at else n;
      var from := at + count;
      if from >= used {
        used := at;
        return used;
      }
      ghost var before := Contents();
      CutIs(before, data[..], at, n);
      MoveDown(at, count, used - from);
      used := used - count;
      ghost var cut := data[..used];
      data[used] := 0;
      assert data[..used] == cut;
      r := count;
    }

    // memmove within the memory, towards its start.
    method MoveDown(at: nat, n: nat, count: nat)
      requires data != null && at + n + count <= data.Length
      modifies data
      ensures data[..at + count] == old(data[..at]) + old(data[at + n..at + n + count])
    {
      ghost var was := data[..];
      for i := 0 to count
        invariant forall k | 0 <= k < |was| && !(at <= k < at + i) :: data[k] == was[k]
        invariant forall k | at <= k < at + i :: data[k] == was[k + n]
      {
        data[at + i] := data[at + n + i];
      }
    }

    method Delete(at: nat, n: nat)
      requires Valid()
      modifies this, data
      ensures Valid() && Contents() == (if n == 0 then old(Contents()) else Cut(old(Contents()), at, n))
      ensures data != null && data[used] == 0 && size == used + 1
    {
      var r := Remove(at, n);
      Resize(used + 1);
      data[used] := 0;
    }

    // Bytes consumed at the front.
    method Advance(n: nat) returns (r: nat)
      requires Valid()
      modifies this, data
      ensures Valid() && Contents() == (if n >= |old(Contents())| then [] else old(Contents())[n..])
      ensures r == |Contents()|
    {
      Delete(0, n);
      r := used;
    }
  }

  // What comes in at a place can be cut out again.
  lemma CutUndoesInsert(b: Bytes, at: nat, bytes: Bytes)
    requires at <= |b|
    ensures Cut(b[..at] + bytes + b[at..], at, |bytes|) == b
  {
    var c := b[..at] + bytes + b[at..];
    assert b == b[..at] + b[at..];
    assert c[..at] == b[..at];
    if |bytes| + at < |c| { assert c[at + |bytes|..] == b[at..]; }
  }

  // Consuming a stream piece by piece or at once.
  lemma AdvanceTwice(b: Bytes, n: nat, m: nat)
    ensures Cut(Cut(b, 0, n), 0, m) == Cut(b, 0, n + m)
  {
  }
}
