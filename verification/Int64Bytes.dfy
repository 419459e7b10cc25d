/** 64-bit integers as eight little-endian bytes. */
module Int64Bytes {
  import opened Reservations

  const TWO_64: int := 0x1_0000_0000_0000_0000
  const TWO_63: int := 0x8000_0000_0000_0000

  function Power(n: nat): int {
    if n == 0 then 1 else 256 * Power(n - 1)
  }

  /** The n low bytes of u, lowest first. */
  function Low(u: nat, n: nat): (b: seq<Byte>)
    ensures |b| == n
  {
    if n == 0 then [] else [u % 256] + Low(u / 256, n - 1)
  }

  function Sum(b: seq<Byte>): nat {
    if b == [] then 0 else b[0] + 256 * Sum(b[1..])
  }

  lemma {:induction false} SumOfTwo(b: seq<Byte>)
    requires |b| >= 2
    ensures Sum(b) == b[0] + 0x100 * b[1] + 0x1_0000 * Sum(b[2..])
  {
    assert b[1..][1..] == b[2..];
  }

  /** Eight bytes, written out: the first counts once, and each counts 256 times as much as the one before it. */
  lemma {:induction false} SumOfEight(b: seq<Byte>)
    requires |b| == 8
    ensures Sum(b) == b[0] as int + 0x100 * b[1] as int + 0x1_0000 * b[2] as int + 0x100_0000 * b[3] as int + 0x1_0000_0000 * b[4] as int
                      + 0x100_0000_0000 * b[5] as int + 0x1_0000_0000_0000 * b[6] as int + 0x100_0000_0000_0000 * b[7] as int
  {
    SumOfTwo(b);
    SumOfTwo(b[2..]);
    SumOfTwo(b[4..]);
    SumOfTwo(b[6..]);
    assert b[2..][2..] == b[4..] && b[4..][2..] == b[6..] && b[6..][2..] == [];
  }

  lemma {:induction false} SumLow(u: nat, n: nat)
    requires u < Power(n)
    ensures Sum(Low(u, n)) == u
  {
    if n > 0 {
      assert u / 256 < Power(n - 1);
      SumLow(u / 256, n - 1);
    }
  }

  lemma {:induction false} LowSum(b: seq<Byte>)
    ensures Sum(b) < Power(|b|) && Low(Sum(b), |b|) == b
  {
    if b != [] {
      LowSum(b[1..]);
      assert Sum(b) / 256 == Sum(b[1..]) && Sum(b) % 256 == b[0];
      assert b == [b[0]] + b[1..];
    }
  }

  lemma {:induction false} PowerEight()
    ensures Power(8) == TWO_64
  {
    assert Power(4) == 0x1_0000_0000;
    assert Power(5) == 0x100_0000_0000;
    assert Power(6) == 0x1_0000_0000_0000;
    assert Power(7) == 0x100_0000_0000_0000;
  }

  /** EncodeInt64: two's complement, lowest byte first. */
  function EncodeInt64(i: int): seq<Byte>
    requires -TWO_63 <= i < TWO_63
  {
    Low(if i < 0 then i + TWO_64 else i, 8)
  }

  /** DecodeInt64. */
  function DecodeInt64(b: seq<Byte>): int
    requires |b| == 8
  {
    var u := Sum(b);
    if u >= TWO_63 then u - TWO_64 else u
  }

  /** The bytes of an encoded integer, lowest first, make up the integer, or 2^64 more than it if it is negative. */
  lemma {:induction false} EncodedBytes(i: int)
    requires -TWO_63 <= i < TWO_63
    ensures var b := EncodeInt64(i);
            b[0] as int + 0x100 * b[1] as int + 0x1_0000 * b[2] as int + 0x100_0000 * b[3] as int + 0x1_0000_0000 * b[4] as int
            + 0x100_0000_0000 * b[5] as int + 0x1_0000_0000_0000 * b[6] as int + 0x100_0000_0000_0000 * b[7] as int == if i >= 0 then i else i + 0x1_0000_0000_0000_0000
  {
    PowerEight();
    SumLow(if i < 0 then i + TWO_64 else i, 8);
    SumOfEight(EncodeInt64(i));
  }

  lemma {:induction false} DecodeEncode(i: int)
    requires -TWO_63 <= i < TWO_63
    ensures DecodeInt64(EncodeInt64(i)) == i
  {
    PowerEight();
    SumLow(if i < 0 then i + TWO_64 else i, 8);
  }

  lemma {:induction false} EncodeDecode(b: seq<Byte>)
    requires |b| == 8
    ensures -TWO_63 <= DecodeInt64(b) < TWO_63 && EncodeInt64(DecodeInt64(b)) == b
  {
    PowerEight();
    LowSum(b);
  }
}
