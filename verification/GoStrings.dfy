/** Strings as Go compares them. */
module GoStrings {

  /** Byte-wise order of strings. */
  predicate StringLess(a: string, b: string) {
    b != [] && (a == [] || a[0] < b[0] || (a[0] == b[0] && StringLess(a[1..], b[1..])))
  }

  /** a and b agree on their first n characters, and then a ends, or has the smaller character. */
  predicate LessAt(a: string, b: string, n: nat) {
    n <= |a| && n < |b| && a[..n] == b[..n] && (n == |a| || a[n] < b[n])
  }

  /** The order of strings is decided by the first character in which they differ. */
  lemma {:induction false} StringLessIff(a: string, b: string)
    ensures StringLess(a, b) <==> exists n :: LessAt(a, b, n)
  {
    if StringLess(a, b) {
      var n := LessWhere(a, b);
    }
    if n :| LessAt(a, b, n) {
      LessThere(a, b, n);
    }
  }

  lemma {:induction false} LessWhere(a: string, b: string) returns (n: nat)
    requires StringLess(a, b)
    ensures LessAt(a, b, n)
  {
    if a == [] || a[0] < b[0] {
      n := 0;
    } else {
      n := LessWhere(a[1..], b[1..]);
      assert a == [a[0]] + a[1..] && b == [b[0]] + b[1..];
      assert a[..n + 1] == [a[0]] + a[1..][..n] && b[..n + 1] == [b[0]] + b[1..][..n];
      n := n + 1;
    }
  }

  lemma {:induction false} LessThere(a: string, b: string, n: nat)
    requires LessAt(a, b, n)
    ensures StringLess(a, b)
  {
    if n > 0 {
      assert a[..n][0] == b[..n][0] && a[1..][..n - 1] == a[..n][1..] && b[1..][..n - 1] == b[..n][1..];
      LessThere(a[1..], b[1..], n - 1);
    }
  }

  lemma {:induction false} StringTotal(a: string, b: string)
    ensures !(StringLess(a, b) && StringLess(b, a))
    ensures StringLess(a, b) || StringLess(b, a) <==> a != b
  {
    if a != [] && b != [] && a[0] == b[0] {
      StringTotal(a[1..], b[1..]);
      assert a == [a[0]] + a[1..] && b == [b[0]] + b[1..];
    }
  }

  lemma {:induction false} StringTransitive(a: string, b: string, c: string)
    requires StringLess(a, b) && StringLess(b, c)
    ensures StringLess(a, c)
  {
    if a != [] && a[0] == b[0] && b[0] == c[0] {
      StringTransitive(a[1..], b[1..], c[1..]);
    }
  }

  lemma {:induction false} StringBetween(a: string, b: string, c: string)
    requires a == b || StringLess(a, b)
    requires b == c || StringLess(b, c)
    ensures a == b == c || (a != c && StringLess(a, c))
  {
    StringTotal(a, b);
    StringTotal(b, c);
    StringTotal(a, c);
    if a != b && b != c {
      StringTransitive(a, b, c);
    }
  }
}
