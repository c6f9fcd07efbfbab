/** Unsigned big-endian integers, as the binary property list format stores them. */
module BigEndian {
  import opened Machine

  type byte = b: int | 0 <= b < 256
  type u16 = c: int | 0 <= c < 0x1_0000

  function Pow256(k: nat): (p: nat)
    ensures p >= 1
  {
    if k == 0 then 1 else 256 * Pow256(k - 1)
  }

  lemma Pow256Values()
    ensures Pow256(0) == 1 && Pow256(1) == 0x100 && Pow256(2) == 0x1_0000 && Pow256(3) == 0x100_0000
    ensures Pow256(4) == 0x1_0000_0000 && Pow256(5) == 0x100_0000_0000 && Pow256(6) == 0x1_0000_0000_0000
    ensures Pow256(7) == 0x100_0000_0000_0000 && Pow256(8) == TWO64
  {
    assert Pow256(2) == 256 * Pow256(1);
    assert Pow256(3) == 256 * Pow256(2);
    assert Pow256(4) == 256 * Pow256(3);
    assert Pow256(5) == 256 * Pow256(4);
    assert Pow256(6) == 256 * Pow256(5);
    assert Pow256(7) == 256 * Pow256(6);
    assert Pow256(8) == 256 * Pow256(7);
  }

  /** The length of `n` fields of `size` bytes each. */
  function Span(n: nat, size: nat): (len: nat) {
    if n == 0 then 0 else Span(n - 1, size) + size
  }

  lemma {:induction false} SpanIsProduct(n: nat, size: nat)
    ensures Span(n, size) == n * size
  {
    if n > 0 {
      SpanIsProduct(n - 1, size);
    }
  }

  lemma {:induction false} SpanMonotone(m: nat, n: nat, size: nat)
    requires m <= n
    ensures Span(m, size) <= Span(n, size)
    ensures size >= 1 ==> n <= Span(n, size)
  {
    if n > 0 {
      SpanMonotone(if m == n then m - 1 else m, n - 1, size);
    }
  }

  /** The low `k` bytes of `n`, most significant first. */
  function ToBE(n: nat, k: nat): (s: seq<byte>)
    ensures |s| == k
  {
    if k == 0 then [] else ToBE(n / 256, k - 1) + [n % 256]
  }

  /** The number a byte string stands for. */
  function FromBE(s: seq<byte>): (n: nat)
  {
    if s == [] then 0 else FromBE(s[..|s| - 1]) * 256 + s[|s| - 1]
  }

  /** Storing a number in enough bytes and reading it back is the identity. */
  lemma {:induction false} FromToBE(n: nat, k: nat)
    requires n < Pow256(k)
    ensures FromBE(ToBE(n, k)) == n
  {
    if k != 0 {
      FromToBE(n / 256, k - 1);
      assert ToBE(n, k)[..k - 1] == ToBE(n / 256, k - 1);
    }
  }

  lemma {:induction false} FromBEBound(s: seq<byte>)
    ensures FromBE(s) < Pow256(|s|)
  {
    if s != [] {
      FromBEBound(s[..|s| - 1]);
    }
  }

  /** Appending bytes on the right multiplies what was there. */
  lemma {:induction false} FromBEConcat(s: seq<byte>, t: seq<byte>)
    ensures FromBE(s + t) == FromBE(s) * Pow256(|t|) + FromBE(t)
  {
    if t == [] {
      assert s + t == s;
    } else {
      var t' := t[..|t| - 1];
      FromBEConcat(s, t');
      assert (s + t)[..|s + t| - 1] == s + t';
      calc {
        FromBE(s + t);
        (FromBE(s) * Pow256(|t'|) + FromBE(t')) * 256 + t[|t| - 1];
        FromBE(s) * Pow256(|t'|) * 256 + FromBE(t);
        { assert FromBE(s) * Pow256(|t'|) * 256 == FromBE(s) * (256 * Pow256(|t'|)); }
        FromBE(s) * Pow256(|t|) + FromBE(t);
      }
    }
  }

  /** What `_getSizedInt` returns: the bytes as a number, in 64-bit arithmetic. */
  function SizedInt(data: seq<byte>, p: nat, size: nat): (n: nat)
    requires p + size <= |data|
  {
    FromBE(data[p..p + size]) % TWO64
  }

  /** `_getSizedInt`: shift-and-add over the bytes, wrapping at 64 bits in every step. */
  method GetSizedInt(data: seq<byte>, p: nat, size: byte) returns (res: nat)
    requires p + size <= |data|
    ensures res == SizedInt(data, p, size)
  {
    res := 0;
    var idx := 0;
    while idx < size
      invariant 0 <= idx <= size
      invariant res == FromBE(data[p..p + idx]) % TWO64
    {
      ghost var before := data[p..p + idx];
      assert data[p..p + idx + 1][..idx] == before;
      WrapStep(FromBE(before), data[p + idx]);
      res := ((res * 256) % TWO64 + data[p + idx]) % TWO64;
      idx := idx + 1;
    }
  }

  /** One wrapped shift-and-add agrees with the unbounded one modulo 2^64. */
  lemma WrapStep(n: nat, b: byte)
    ensures (((n % TWO64) * 256) % TWO64 + b) % TWO64 == (n * 256 + b) % TWO64
  {
    var q, r := n / TWO64, n % TWO64;
    var q', r' := (r * 256) / TWO64, (r * 256) % TWO64;
    assert n * 256 + b == r' + b + TWO64 * (q' + 256 * q);
    AddMultiple(r' + b, q' + 256 * q);
  }

  lemma AddMultiple(x: nat, k: nat)
    ensures (x + TWO64 * k) % TWO64 == x % TWO64
  {
    var q, r := x / TWO64, x % TWO64;
    assert x + TWO64 * k == r + TWO64 * (q + k);
  }

  /** A number that fits is read back unchanged wherever its bytes lie. */
  lemma ReadStored(data: seq<byte>, p: nat, n: nat, k: nat)
    requires p + k <= |data| && data[p..p + k] == ToBE(n, k)
    requires n < Pow256(k) && n < TWO64
    ensures SizedInt(data, p, k) == n
  {
    FromToBE(n, k);
  }
}
