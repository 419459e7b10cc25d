/** The time windows of object spans: which events share a cache key, and where their span starts. */
module Windows {
  import opened GoIntegers

  /** A time as Unix seconds and the nanoseconds after them. */
  datatype Time = Time(unix: int, nanos: nat)

  /** The window number in expiringSpanCacheKey; ttl is the span duration in whole seconds. */
  function Window(t: Time, ttl: int): int
    requires ttl > 0
  {
    TruncDiv(t.unix, ttl)
  }

  /** The start time in CreatePseudoSpan. */
  function StartTime(t: Time, ttl: int): Time
    requires ttl > 0
  {
    t.(unix := t.unix - TruncMod(t.unix, ttl))
  }

  /** The cache key and the span agree. */
  lemma {:induction false} WindowStart(t: Time, ttl: int)
    requires ttl > 0
    ensures StartTime(t, ttl).unix == Window(t, ttl) * ttl
  {
  }

  /** Two events share a window exactly when their spans start in the same second. */
  lemma {:induction false} SameWindowIff(a: Time, b: Time, ttl: int)
    requires ttl > 0
    ensures Window(a, ttl) == Window(b, ttl) <==> StartTime(a, ttl).unix == StartTime(b, ttl).unix
  {
    WindowStart(a, ttl);
    WindowStart(b, ttl);
    if Window(a, ttl) != Window(b, ttl) {
      MulDistinct(Window(a, ttl), Window(b, ttl), ttl);
    }
  }

  lemma {:induction false} MulDistinct(x: int, y: int, ttl: int)
    requires ttl > 0 && x != y
    ensures x * ttl != y * ttl
  {
    var lo, hi := if x < y then x else y, if x < y then y else x;
    MulMonotone(lo + 1, hi, ttl);
    assert (lo + 1) * ttl == lo * ttl + ttl;
  }

  lemma {:induction false} MulMonotone(x: int, y: int, ttl: int)
    requires ttl > 0 && x <= y
    ensures x * ttl <= y * ttl
    decreases y - x
  {
    if x < y {
      MulMonotone(x, y - 1, ttl);
      assert y * ttl == (y - 1) * ttl + ttl;
    }
  }

  lemma {:induction false} DivBounds(a: int, b: int)
    requires b > 0
    ensures a >= 0 ==> 0 <= TruncMod(a, b) < b
    ensures a < 0 ==> -b < TruncMod(a, b) <= 0
  {
    if a < 0 {
      assert -a == (-a / b) * b + (-a) % b;
    } else {
      assert a == a / b * b + a % b;
    }
  }

  /** An event lies within the seconds of its span exactly when it is not before 1970, or falls on the start of a window. */
  lemma {:induction false} WithinSpanIff(t: Time, ttl: int)
    requires ttl > 0
    ensures StartTime(t, ttl).unix <= t.unix < StartTime(t, ttl).unix + ttl <==> t.unix >= 0 || TruncMod(t.unix, ttl) == 0
  {
    DivBounds(t.unix, ttl);
  }
}
