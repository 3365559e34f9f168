/** Outcomes shared by the modules of the model. */
module Wrappers {
  datatype Option<+T> = None | Some(value: T)
  datatype Result<+T, +E> = Ok(value: T) | Err(error: E)
}

/** Bytes and the fixed-width integers laid out in them. Rings and
    descriptors are little endian, frame headers are big endian. */
module Bytes {
  type Byte = b: int | 0 <= b < 256

  const U16_LIMIT := 0x1_0000
  const U32_LIMIT := 0x1_0000_0000
  const U64_LIMIT := 0x1_0000_0000_0000_0000

  /** Number of values `n` bytes can hold. */
  function Pow256(n: nat): (p: nat)
    ensures p > 0
  {
    if n == 0 then 1 else 256 * Pow256(n - 1)
  }

  function LittleEndian(v: nat, n: nat): (s: seq<Byte>)
    ensures |s| == n
  {
    if n == 0 then [] else [v % 256] + LittleEndian(v / 256, n - 1)
  }

  function FromLittleEndian(s: seq<Byte>): (v: nat)
    ensures v < Pow256(|s|)
  {
    if s == [] then 0 else s[0] + 256 * FromLittleEndian(s[1..])
  }

  lemma {:induction false} LittleEndianRoundTrip(v: nat, n: nat)
    requires v < Pow256(n)
    ensures FromLittleEndian(LittleEndian(v, n)) == v
  {
    if n != 0 {
      LittleEndianRoundTrip(v / 256, n - 1);
      assert LittleEndian(v, n)[1..] == LittleEndian(v / 256, n - 1);
    }
  }

  lemma Widths()
    ensures Pow256(2) == U16_LIMIT && Pow256(4) == U32_LIMIT && Pow256(8) == U64_LIMIT
  {
    assert Pow256(1) == 256 && Pow256(2) == 0x1_0000 && Pow256(3) == 0x100_0000 && Pow256(4) == 0x1_0000_0000;
    assert Pow256(5) == 0x100_0000_0000 && Pow256(6) == 0x1_0000_0000_0000 && Pow256(7) == 0x100_0000_0000_0000;
  }

  /** Byte `k` counts in units of 256 to the power `k`, lowest first. */
  lemma {:induction false} LittleEndianDigit(v: nat, n: nat, k: nat)
    requires k < n
    ensures LittleEndian(v, n)[k] == v / Pow256(k) % 256
  {
    if k > 0 {
      LittleEndianDigit(v / 256, n - 1, k - 1);
      DivideTwice(v, Pow256(k - 1));
    }
  }

  /** And highest first. */
  lemma {:induction false} BigEndianDigit(v: nat, n: nat, k: nat)
    requires k < n
    ensures BigEndian(v, n)[n - 1 - k] == v / Pow256(k) % 256
  {
    if k > 0 {
      BigEndianDigit(v / 256, n - 1, k - 1);
      DivideTwice(v, Pow256(k - 1));
    }
  }

  lemma DivideTwice(v: nat, p: nat)
    requires p > 0
    ensures v / 256 / p == v / (256 * p)
  {
    var q, r := v / 256, v % 256;
    var s, t := q / p, q % p;
    assert v == 256 * q + r && q == p * s + t;
    var rest := 256 * t + r;
    assert 256 * (p * s) == 256 * p * s;
    assert v == 256 * p * s + rest;
    assert 0 <= t <= p - 1;
    assert rest < 256 * p;
    RemainderUnique(v, 256 * p, s, rest);
  }

  lemma Stride(n: nat, d: int)
    ensures d >= 1 ==> n * d >= n
    ensures d <= 0 ==> n * d <= 0
    ensures d <= -1 ==> n * d + n <= 0
  {
  }

  /** A number has one remainder. */
  lemma RemainderUnique(k: int, n: nat, q: int, r: int)
    requires n > 0 && k == n * q + r && 0 <= r < n
    ensures k % n == r && k / n == q
  {
    var quotient := k / n;
    assert k == n * quotient + k % n;
    var d := quotient - q;
    assert n * d == n * quotient - n * q;
    Stride(n, d);
  }

  function BigEndian(v: nat, n: nat): (s: seq<Byte>)
    ensures |s| == n
  {
    if n == 0 then [] else BigEndian(v / 256, n - 1) + [v % 256]
  }

  function FromBigEndian(s: seq<Byte>): (v: nat)
    ensures v < Pow256(|s|)
  {
    if s == [] then 0 else FromBigEndian(s[..|s| - 1]) * 256 + s[|s| - 1]
  }

  lemma {:induction false} BigEndianRoundTrip(v: nat, n: nat)
    requires v < Pow256(n)
    ensures FromBigEndian(BigEndian(v, n)) == v
  {
    if n != 0 {
      BigEndianRoundTrip(v / 256, n - 1);
      assert BigEndian(v, n)[..n - 1] == BigEndian(v / 256, n - 1);
    }
  }

  lemma {:induction false} BigEndianInverse(s: seq<Byte>)
    ensures BigEndian(FromBigEndian(s), |s|) == s
  {
    if s != [] {
      var front, last := s[..|s| - 1], s[|s| - 1];
      BigEndianInverse(front);
      hide Pow256;
      var v := FromBigEndian(front);
      assert FromBigEndian(s) == v * 256 + last;
      hide FromBigEndian;
      assert (v * 256 + last) / 256 == v && (v * 256 + last) % 256 == last;
      assert s == front + [last];
    }
  }

  /** Sums of 32-bit counters wrap like the sum itself. */
  lemma WrappedSum(a: nat, b: nat)
    ensures (a % U32_LIMIT + b) % U32_LIMIT == (a + b) % U32_LIMIT
  {
  }
}
