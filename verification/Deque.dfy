/** A queue in a ring buffer that doubles when it is full. */
module Deques {
  import opened Wrappers

  /** The items of a ring buffer from `start` round to `end`. */
  function Ring<T>(d: seq<T>, start: nat, end: nat): seq<T>
    requires start < |d| && end < |d|
  {
    if start <= end then d[start..end] else d[start..] + d[..end]
  }

  lemma {:induction false} NextIndex(i: nat, n: nat)
    requires i < n
    ensures (i + 1) % n == if i + 1 == n then 0 else i + 1
  {
  }

  /** Writing behind the last item adds one item; when that closes the ring, the buffer holds exactly the items. */
  lemma {:induction false} RingPush<T>(d: seq<T>, start: nat, end: nat, x: T)
    requires start < |d| && end < |d|
    ensures var d', end' := d[end := x], (end + 1) % |d|;
            (if end' == start then d'[start..] + d'[..start] else Ring(d', start, end')) == Ring(d, start, end) + [x]
  {
    NextIndex(end, |d|);
    if end < start {
      PushWrapped(d, start, end, x);
    } else {
      PushStraight(d, start, end, x);
    }
  }

  lemma {:induction false} PushWrapped<T>(d: seq<T>, start: nat, end: nat, x: T)
    requires end < start < |d|
    ensures d[end := x][start..] + d[end := x][..end + 1] == d[start..] + d[..end] + [x]
  {
    assert d[end := x][start..] == d[start..];
    assert d[end := x][..end + 1] == d[..end] + [x];
  }

  lemma {:induction false} PushStraight<T>(d: seq<T>, start: nat, end: nat, x: T)
    requires start <= end < |d|
    ensures d[end := x][start..end + 1] == d[start..end] + [x]
    ensures end + 1 == |d| ==> d[end := x][start..] == d[start..end] + [x]
  {
  }

  lemma {:induction false} RingPop<T>(d: seq<T>, start: nat, end: nat, z: T)
    requires start < |d| && end < |d| && start != end
    ensures [d[start]] + Ring(d[start := z], (start + 1) % |d|, end) == Ring(d, start, end)
  {
    NextIndex(start, |d|);
    if start < end {
      PopStraight(d, start, end, z);
    } else {
      PopStraight(d, start, |d|, z);
      PopKeepsFront(d, start, end, z);
    }
  }

  lemma {:induction false} PopStraight<T>(d: seq<T>, start: nat, end: nat, z: T)
    requires start < end <= |d|
    ensures [d[start]] + d[start := z][start + 1..end] == d[start..end]
  {
    assert d[start := z][start + 1..end] == d[start + 1..end];
  }

  lemma {:induction false} PopKeepsFront<T>(d: seq<T>, start: nat, end: nat, z: T)
    requires end <= start < |d|
    ensures d[start := z][..end] == d[..end]
  {
  }

  class Deque<T(0)> {
    var data: array<T>
    var start: nat
    var end: nat
    var maxLength: nat

    /** start and end are equal only when the deque is empty. */
    ghost predicate Valid()
      reads this
    {
      data.Length > 0 && start < data.Length && end < data.Length
    }

    /** The items from front to back. */
    ghost function Contents(): seq<T>
      requires Valid()
      reads this, data
    {
      Ring(data[..], start, end)
    }

    constructor (initialCapacity: nat)
      requires initialCapacity > 0
      ensures Valid() && fresh(data) && Contents() == [] && maxLength == 0
    {
      data := new T[initialCapacity];
      start, end, maxLength := 0, 0, 0;
    }

    method PushBack(obj: T)
      requires Valid()
      modifies this, data
      ensures Valid() && (data == old(data) || fresh(data))
      ensures Contents() == old(Contents()) + [obj]
      ensures maxLength == if |Contents()| > old(maxLength) then |Contents()| else old(maxLength)
    {
      hide Ring;
      ghost var d := data[..];
      RingPush(d, start, end, obj);
      data[end] := obj;
      assert data[..] == d[end := obj];
      end := (end + 1) % data.Length;
      if end == start {
        Grow();
      }
      var length := Len();
      if length > maxLength {
        maxLength := length;
      }
    }

    /** The full buffer is copied to one of twice the size, front first. */
    method Grow()
      requires Valid() && start == end
      modifies this
      ensures Valid() && fresh(data) && maxLength == old(maxLength)
      ensures Contents() == old(data[..][start..] + data[..][..start])
    {
      var newData := new T[data.Length * 2];
      for i := start to data.Length
        modifies newData
        invariant forall j :: start <= j < i ==> newData[j - start] == data[j]
      {
        newData[i - start] := data[i];
      }
      var leftOffset := data.Length - start;
      for i := 0 to end
        modifies newData
        invariant forall j :: start <= j < data.Length ==> newData[j - start] == data[j]
        invariant forall j :: 0 <= j < i ==> newData[leftOffset + j] == data[j]
      {
        newData[leftOffset + i] := data[i];
      }
      assert newData[..data.Length] == data[start..] + data[..start];
      start := 0;
      end := data.Length;
      data := newData;
    }

    method PopFront(zero: T) returns (item: Option<T>)
      requires Valid()
      modifies this`start, data
      ensures Valid() && data == old(data)
      ensures item.None? <==> old(Contents()) == []
      ensures item.Some? ==> old(Contents()) == [item.value] + Contents()
      ensures item.None? ==> Contents() == []
    {
      if start == end {
        return None;
      }
      RingPop(data[..], start, end, zero);
      item := Some(data[start]);
      data[start] := zero;
      start := (start + 1) % data.Length;
    }

    method PeekFront() returns (item: Option<T>)
      requires Valid()
      ensures item == if Contents() == [] then None else Some(Contents()[0])
    {
      if start == end {
        return None;
      }
      return Some(data[start]);
    }

    method Len() returns (n: nat)
      requires Valid()
      ensures n == |Contents()|
    {
      var delta := end - start;
      if delta < 0 {
        delta := delta + data.Length;
      }
      n := delta;
    }

    /** The longest the deque has been after a push since the last reset. */
    method GetAndResetLength() returns (n: nat)
      requires Valid()
      modifies this`maxLength
      ensures n == old(maxLength) && maxLength == 0 && Valid() && Contents() == old(Contents())
    {
      n := maxLength;
      maxLength := 0;
    }

    /** All items, as the two runs they are stored in. */
    method GetAll() returns (first: seq<T>, second: seq<T>)
      requires Valid()
      ensures first + second == Contents()
    {
      if end < start {
        return data[start..], data[..end];
      }
      return data[start..end], [];
    }
  }
}
