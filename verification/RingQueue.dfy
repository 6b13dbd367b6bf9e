/** The fixed-capacity ring queues of a radio slot. */
module RingQueue {
  import opened Machine

  /** An index past the end of the ring starts over. */
  function Wrap(x: nat, n: nat): (r: nat)
    requires x < 2 * n
    ensures r < n
  {
    if x < n then x else x - n
  }

  /** The index as the code computes it. */
  method Modulo(x: nat, n: nat) returns (r: nat)
    requires x < 2 * n
    ensures r == Wrap(x, n)
  {
    r := x % n;
    if x < n {
      SmallQuotient(x, n, 0);
    } else {
      SmallQuotient(x, n, 1);
    }
  }

  lemma SmallQuotient(x: nat, n: nat, q: nat)
    requires 0 < n && q * n <= x < q * n + n
    ensures x % n == x - q * n
  {
    var k := x / n;
    assert x == k * n + x % n;
    if k > q { Product(q + 1, k, n); }
    if k < q { Product(k + 1, q, n); }
  }

  /** The elements a predicate does not drop, in order. */
  function Retain<T>(s: seq<T>, drop: T -> bool): (r: seq<T>)
    ensures |r| <= |s|
  {
    if s == [] then []
    else
      var n := |s| - 1;
      Retain(s[..n], drop) + (if drop(s[n]) then [] else [s[n]])
  }

  /** The occupied slots of a ring, from its head. */
  function Occupied<T>(slots: seq<T>, head: nat, len: nat): (s: seq<T>)
    requires head < |slots| && len <= |slots|
    ensures |s| == len
  {
    if head + len <= |slots| then slots[head..head + len]
    else slots[head..] + slots[..head + len - |slots|]
  }

  lemma OccupiedAt<T>(slots: seq<T>, head: nat, len: nat, i: nat)
    requires head < |slots| && i < len <= |slots|
    ensures Occupied(slots, head, len)[i] == slots[Wrap(head + i, |slots|)]
  {
  }

  lemma PushedBack<T>(slots: seq<T>, head: nat, len: nat, x: T)
    requires head < |slots| && len < |slots|
    ensures Occupied(slots[Wrap(head + len, |slots|) := x], head, len + 1) == Occupied(slots, head, len) + [x]
  {
  }

  lemma PushedFront<T>(slots: seq<T>, head: nat, len: nat, x: T)
    requires head < |slots| && len < |slots|
    ensures var h := Wrap(head + |slots| - 1, |slots|);
            Occupied(slots[h := x], h, len + 1) == [x] + Occupied(slots, head, len)
  {
    var h := Wrap(head + |slots| - 1, |slots|);
    var next := slots[h := x];
    var all, tail := Occupied(next, h, len + 1), Occupied(slots, head, len);
    forall i | 0 <= i < len + 1 ensures all[i] == ([x] + tail)[i] {
      OccupiedAt(next, h, len + 1, i);
      if i > 0 { OccupiedAt(slots, head, len, i - 1); }
      hide Occupied;
    }
    hide Occupied, Wrap;
  }

  lemma Popped<T>(slots: seq<T>, head: nat, len: nat)
    requires head < |slots| && 0 < len <= |slots|
    ensures Occupied(slots, head, len) == [slots[head]] + Occupied(slots, Wrap(head + 1, |slots|), len - 1)
  {
    var all, tail := Occupied(slots, head, len), Occupied(slots, Wrap(head + 1, |slots|), len - 1);
    forall i | 0 <= i < len ensures all[i] == ([slots[head]] + tail)[i] {
      OccupiedAt(slots, head, len, i);
      if i > 0 { OccupiedAt(slots, Wrap(head + 1, |slots|), len - 1, i - 1); }
    }
  }

  /** The slots after the loop has read `read` elements. */
  ghost function CompactSlots<T>(slots: seq<T>, head: nat, was: seq<T>, read: nat, drop: T -> bool): (r: seq<T>)
    requires head < |slots| && read <= |was| <= |slots|
    ensures |r| == |slots|
    decreases read
  {
    if read == 0 then slots
    else
      var before := CompactSlots(slots, head, was, read - 1, drop);
      if drop(was[read - 1]) then before
      else before[Wrap(head + |Retain(was[..read - 1], drop)|, |slots|) := was[read - 1]]
  }

  /** Half way, the kept part of what was read lies at the front, and the rest is untouched. */
  lemma {:induction false} CompactSlotsAt<T>(
    slots: seq<T>, head: nat, was: seq<T>, read: nat, drop: T -> bool, j: nat)
    requires head < |slots| && read <= |was| <= |slots| && was == Occupied(slots, head, |was|)
    ensures j < |Retain(was[..read], drop)| ==>
              CompactSlots(slots, head, was, read, drop)[Wrap(head + j, |slots|)] == Retain(was[..read], drop)[j]
    ensures read <= j < |was| ==> CompactSlots(slots, head, was, read, drop)[Wrap(head + j, |slots|)] == was[j]
    decreases read
  {
    if read == 0 {
      if j < |was| { OccupiedAt(slots, head, |was|, j); }
    } else {
      CompactSlotsAt(slots, head, was, read - 1, drop, j);
      assert was[..read][..read - 1] == was[..read - 1];
    }
  }

  lemma CompactStart<T>(slots: seq<T>, head: nat, was: seq<T>, drop: T -> bool)
    requires head < |slots| && |was| <= |slots|
    ensures CompactSlots(slots, head, was, 0, drop) == slots && Retain(was[..0], drop) == []
  {
  }

  lemma CompactRead<T>(slots: seq<T>, head: nat, was: seq<T>, read: nat, drop: T -> bool)
    requires head < |slots| && read < |was| <= |slots| && was == Occupied(slots, head, |was|)
    ensures CompactSlots(slots, head, was, read, drop)[Wrap(head + read, |slots|)] == was[read]
    ensures CompactSlots(slots, head, was, read + 1, drop) ==
            var before := CompactSlots(slots, head, was, read, drop);
            if drop(was[read]) then before
            else before[Wrap(head + |Retain(was[..read], drop)|, |slots|) := was[read]]
    ensures |Retain(was[..read + 1], drop)| == |Retain(was[..read], drop)| + (if drop(was[read]) then 0 else 1)
  {
    CompactSlotsAt(slots, head, was, read, drop, read);
    assert was[..read + 1][..read] == was[..read];
  }

  lemma Compacted<T>(slots: seq<T>, head: nat, was: seq<T>, drop: T -> bool)
    requires head < |slots| && |was| <= |slots| && was == Occupied(slots, head, |was|)
    ensures Occupied(CompactSlots(slots, head, was, |was|, drop), head, |Retain(was, drop)|) == Retain(was, drop)
  {
    var after, kept := CompactSlots(slots, head, was, |was|, drop), Retain(was, drop);
    assert was[..|was|] == was;
    forall j: nat | j < |kept| ensures Occupied(after, head, |kept|)[j] == kept[j] {
      CompactSlotsAt(slots, head, was, |was|, drop, j);
      OccupiedAt(after, head, |kept|, j);
    }
  }

  class Ring<T(0)> {
    const buf: array<T>
    var head: nat
    var tail: nat
    var len: nat

    /** The occupied part is the `len` slots from `head`, and `tail` is the slot after them. */
    ghost predicate Valid()
      reads this
    {
      && buf.Length > 0
      && head < buf.Length && len <= buf.Length
      && tail == Wrap(head + len, buf.Length)
    }

    ghost function Contents(): (s: seq<T>)
      requires Valid()
      reads this, buf
      ensures |s| == len
    {
      Occupied(buf[..], head, len)
    }

    constructor (capacity: nat)
      requires capacity > 0
      ensures Valid() && fresh(buf) && buf.Length == capacity && Contents() == []
    {
      buf := new T[capacity];
      head, tail, len := 0, 0, 0;
    }

    method Push(x: T) returns (ok: bool)
      requires Valid()
      modifies this`tail, this`len, buf
      ensures Valid()
      ensures ok <==> old(len) < buf.Length
      ensures Contents() == if ok then old(Contents()) + [x] else old(Contents())
    {
      if len == buf.Length {
        return false;
      }
      PushedBack(buf[..], head, len, x);
      buf[tail] := x;
      assert buf[..] == old(buf[..])[tail := x];
      tail := Modulo(tail + 1, buf.Length);
      len := len + 1;
      return true;
    }

    method PushFront(x: T) returns (ok: bool)
      requires Valid()
      modifies this`head, this`len, buf
      ensures Valid()
      ensures ok <==> old(len) < buf.Length
      ensures Contents() == if ok then [x] + old(Contents()) else old(Contents())
    {
      if len == buf.Length {
        return false;
      }
      PushedFront(buf[..], head, len, x);
      head := Modulo(head + buf.Length - 1, buf.Length);
      buf[head] := x;
      assert buf[..] == old(buf[..])[head := x];
      len := len + 1;
      return true;
    }

    method Pop() returns (x: Option<T>)
      requires Valid()
      modifies this`head, this`len
      ensures Valid()
      ensures x.None? <==> old(len) == 0
      ensures x.None? ==> Contents() == old(Contents())
      ensures x.Some? ==> [x.value] + Contents() == old(Contents())
    {
      if len == 0 {
        return None;
      }
      Popped(buf[..], head, len);
      x := Some(buf[head]);
      head := Modulo(head + 1, buf.Length);
      len := len - 1;
    }

    /** Compaction in place: both indices are circular, and the write index trails the read index. */
    method Compact(drop: T -> bool) returns (kept: nat, removed: nat)
      requires Valid()
      modifies buf
      ensures kept + removed == len
      ensures kept == |Retain(old(Contents())[..len], drop)|
      ensures buf[..] == CompactSlots(old(buf[..]), head, old(Contents()), len, drop)
    {
      ghost var was, slots := Contents(), buf[..];
      hide CompactSlots, Retain, Occupied, Wrap;
      CompactStart(slots, head, was, drop);
      kept, removed := 0, 0;
      for read := 0 to len
        invariant kept + removed == read && kept == |Retain(was[..read], drop)|
        invariant buf[..] == CompactSlots(slots, head, was, read, drop)
      {
        CompactRead(slots, head, was, read, drop);
        var dropped := CompactOne(read, kept, drop, was[read]);
        if dropped {
          removed := removed + 1;
        } else {
          kept := kept + 1;
        }
      }
    }

    /** The loop body: keep the element at `read` by moving it to `write`, or drop it. */
    method CompactOne(read: nat, write: nat, drop: T -> bool, ghost x: T) returns (dropped: bool)
      requires Valid() && write <= read < len && x == buf[..][Wrap(head + read, buf.Length)]
      modifies buf
      ensures dropped == drop(x)
      ensures buf[..] == if dropped then old(buf[..]) else old(buf[..])[Wrap(head + write, buf.Length) := x]
    {
      var src := Modulo(head + read, buf.Length);
      if drop(buf[src]) {
        return true;
      }
      var dst := Modulo(head + write, buf.Length);
      if write != read {
        buf[dst] := buf[src];
      }
      return false;
    }

    method RemoveWhere(drop: T -> bool) returns (removed: nat)
      requires Valid()
      modifies this`tail, this`len, buf
      ensures Valid()
      ensures Contents() == Retain(old(Contents()), drop)
      ensures removed == |old(Contents())| - |Contents()|
    {
      ghost var was, slots := Contents(), buf[..];
      var kept;
      kept, removed := Compact(drop);
      assert was[..len] == was;
      Compacted(slots, head, was, drop);
      if removed > 0 {
        tail := Modulo(head + kept, buf.Length);
        len := kept;
      }
    }
  }
}
