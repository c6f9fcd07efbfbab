/** Machine integers, powers of two and slices. */
module Machine {
  datatype Option<+T> = None | Some(value: T)

  const TWO31 := 0x8000_0000
  const TWO32 := 0x1_0000_0000
  const TWO63 := 0x8000_0000_0000_0000
  const TWO64 := 0x1_0000_0000_0000_0000
  const TWO127 := 0x8000_0000_0000_0000_0000_0000_0000_0000
  const TWO128 := 0x1_0000_0000_0000_0000_0000_0000_0000_0000
  const LONG_MAX := 0x7FFF_FFFF_FFFF_FFFF

  // A capacity is `1 << n` computed on a 32-bit int; the largest is 2 to the 30.
  const MAX_CAPACITY := 0x4000_0000

  function Pow2(n: nat): (r: nat)
    ensures r > 0
  {
    if n == 0 then 1 else 2 * Pow2(n - 1)
  }

  /** `flsl`: the number of binary digits. */
  function Digits(n: nat): (d: nat)
    ensures n < Pow2(d)
    ensures n > 0 ==> d > 0 && Pow2(d - 1) <= n
  {
    if n == 0 then 0 else 1 + Digits(n / 2)
  }

  /** `__CFArrayDequeRoundUpCapacity` and `__CFBinaryHeapRoundUpCapacity`. */
  function RoundUpCapacity(capacity: nat): (r: nat)
    ensures capacity < r || (capacity < 4 && r == 4)
    ensures r == 4 || r <= 2 * capacity
    ensures exists d :: r == Pow2(d)
  {
    if capacity < 4 then assert Pow2(2) == 4; 4 else Pow2(Digits(capacity))
  }

  /** A capacity for fewer than 2 to the 30 values stays within it. */
  lemma RoundUpBound(capacity: nat)
    requires capacity < MAX_CAPACITY
    ensures RoundUpCapacity(capacity) <= MAX_CAPACITY
  {
    if capacity >= 4 {
      assert Pow2(10) == 0x400;
      PowSum(10, 10);
      PowSum(20, 10);
      PowBound(Digits(capacity), 30);
    }
  }

  lemma {:induction false} PowSum(a: nat, b: nat)
    ensures Pow2(a + b) == Pow2(a) * Pow2(b)
  {
    if b > 0 {
      PowSum(a, b - 1);
    }
  }

  lemma {:induction false} PowBound(d: nat, e: nat)
    requires d > 0 && Pow2(d - 1) < Pow2(e)
    ensures Pow2(d) <= Pow2(e)
    decreases e
  {
    if d > 1 && e > 0 {
      PowBound(d - 1, e - 1);
    }
  }

  lemma SliceOfSlice<T>(s: seq<T>, a: nat, n: nat, from: nat, len: nat)
    requires a + n <= |s| && from + len <= n
    ensures s[a..a + n][from..from + len] == s[a + from..a + from + len]
  {
    var x, y := s[a..a + n][from..from + len], s[a + from..a + from + len];
    assert |x| == |y| && forall i :: 0 <= i < len ==> x[i] == s[a..a + n][from + i];
  }
}
