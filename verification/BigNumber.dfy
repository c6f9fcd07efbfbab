/** CFBigNumber: signed numbers of five base-one-billion digits. */
module BigNumber {
  import opened Machine

  const LIMIT := 1_000_000_000
  const LIMIT_2 := LIMIT * LIMIT
  const LIMIT_3 := LIMIT_2 * LIMIT
  const LIMIT_4 := LIMIT_3 * LIMIT
  const LIMIT_5 := LIMIT_4 * LIMIT

  // ---------- Digits and magnitudes

  /** The number with digits `d`, the least significant first. */
  ghost function Mag(d: seq<int>): int {
    if d == [] then 0 else d[0] + LIMIT * Mag(d[1..])
  }

  ghost predicate Proper(d: seq<int>) {
    forall i :: 0 <= i < |d| ==> 0 <= d[i] < LIMIT
  }

  lemma FiveDigits(d: seq<int>)
    requires |d| == 5
    ensures Mag(d) == d[0] + LIMIT * d[1] + LIMIT_2 * d[2] + LIMIT_3 * d[3] + LIMIT_4 * d[4]
  {
    assert Mag(d[5..]) == 0;
    assert d[1..][1..] == d[2..] && d[2..][1..] == d[3..] && d[3..][1..] == d[4..] && d[4..][1..] == d[5..];
    assert Mag(d[4..]) == d[4];
    assert Mag(d[3..]) == d[3] + LIMIT * Mag(d[4..]);
    assert Mag(d[2..]) == d[2] + LIMIT * Mag(d[3..]);
    assert Mag(d[1..]) == d[1] + LIMIT * Mag(d[2..]);
  }

  /** A top digit can be split into a proper digit and what is carried over it. */
  lemma {:induction false} SplitTop(d: seq<int>, low: int, high: int)
    ensures Mag(d + [low + LIMIT * high]) == Mag(d + [low, high])
  {
    if d == [] {
      var top := low + LIMIT * high;
      assert d + [top] == [top] && d + [low, high] == [low, high];
      assert [low, high][1..] == [high] && [high][1..] == [] && [top][1..] == [];
      assert Mag([high]) == high && Mag([top]) == top;
    } else {
      SplitTop(d[1..], low, high);
      assert (d + [low + LIMIT * high])[1..] == d[1..] + [low + LIMIT * high];
      assert (d + [low, high])[1..] == d[1..] + [low, high];
    }
  }

  lemma {:induction false} MagBounds(d: seq<int>)
    requires Proper(d)
    ensures 0 <= Mag(d)
    ensures |d| == 5 ==> Mag(d) < LIMIT_5
  {
    if d != [] {
      MagBounds(d[1..]);
    }
    if |d| == 5 {
      FiveDigits(d);
    }
  }

  /** The most significant digit in which two numbers differ decides. */
  lemma {:induction false} TopDecides(a: seq<int>, b: seq<int>, i: nat)
    requires |a| == |b| && Proper(a) && Proper(b) && i < |a| && a[i + 1..] == b[i + 1..] && a[i] < b[i]
    ensures Mag(a) < Mag(b)
  {
    if i > 0 {
      assert a[1..][i..] == a[i + 1..] && b[1..][i..] == b[i + 1..];
      TopDecides(a[1..], b[1..], i - 1);
    }
  }

  lemma MagZero(d: seq<int>)
    requires |d| == 5 && Proper(d)
    ensures Mag(d) == 0 <==> d == [0, 0, 0, 0, 0]
  {
    FiveDigits(d);
  }

  // ---------- Carries and borrows

  /** The carry into digit `i` of a same-sign addition, by the source's test. */
  ghost function CarryInto(a: seq<int>, b: seq<int>, i: nat): int
    requires i <= |a| && i <= |b|
  {
    if i == 0 then 0 else if a[i - 1] + b[i - 1] + CarryInto(a, b, i - 1) > LIMIT then 1 else 0
  }

  /** A digit sum of exactly one billion is left standing, because the test asks for more. */
  ghost predicate FullAt(a: seq<int>, b: seq<int>, i: nat)
    requires i < |a| && i < |b|
  {
    a[i] + b[i] + CarryInto(a, b, i) == LIMIT
  }

  ghost predicate NoneFull(a: seq<int>, b: seq<int>)
    requires |a| == |b|
  {
    forall i :: 0 <= i < |a| ==> !FullAt(a, b, i)
  }

  /** The rest of an addition from digit `i` on, as one top digit. */
  ghost function SumRest(a: seq<int>, b: seq<int>, i: nat, carry: int): int
    requires i <= |a| == |b|
  {
    Mag(a[i..]) + Mag(b[i..]) + carry
  }

  lemma AddDigit(a: seq<int>, b: seq<int>, r: seq<int>, i: nat, carry: int, d: int, carry': int)
    requires i < |a| == |b| && d + LIMIT * carry' == a[i] + b[i] + carry
    ensures Mag(r + [SumRest(a, b, i, carry)]) == Mag(r + [d, SumRest(a, b, i + 1, carry')])
  {
    assert a[i..][1..] == a[i + 1..] && b[i..][1..] == b[i + 1..];
    assert SumRest(a, b, i, carry) == d + LIMIT * SumRest(a, b, i + 1, carry');
    SplitTop(r, d, SumRest(a, b, i + 1, carry'));
  }

  ghost function DiffRest(a: seq<int>, b: seq<int>, i: nat, borrow: int): int
    requires i <= |a| == |b|
  {
    Mag(a[i..]) - Mag(b[i..]) - borrow
  }

  lemma SubDigit(a: seq<int>, b: seq<int>, r: seq<int>, i: nat, borrow: int, d: int, borrow': int)
    requires i < |a| == |b| && d - LIMIT * borrow' == a[i] - b[i] - borrow
    ensures Mag(r + [DiffRest(a, b, i, borrow)]) == Mag(r + [d, DiffRest(a, b, i + 1, borrow')])
  {
    assert a[i..][1..] == a[i + 1..] && b[i..][1..] == b[i + 1..];
    assert DiffRest(a, b, i, borrow) == d + LIMIT * DiffRest(a, b, i + 1, borrow');
    SplitTop(r, d, DiffRest(a, b, i + 1, borrow'));
  }

  lemma TopOfFive(r: seq<int>, top: int)
    requires |r| == 5
    ensures Mag(r + [top]) == Mag(r) + LIMIT_5 * top
  {
    var d := r + [top];
    FiveDigits(r);
    FiveDigits(d[1..]);
    assert d[1..] == r[1..] + [top];
  }

  class BigNum {
    var digits: seq<int>
    var sign: int

    ghost predicate Valid()
      reads this
    {
      |digits| == 5 && Proper(digits) && (sign == 0 || sign == -1)
    }

    ghost function Value(): int
      reads this
    {
      if sign < 0 then -Mag(digits) else Mag(digits)
    }

    constructor ()
      ensures Valid() && Value() == 0 && sign == 0
    {
      digits, sign := [0, 0, 0, 0, 0], 0;
      new;
      FiveDigits(digits);
    }
  }

  /** `_CFBigNumAbsoluteLessThan`. */
  method AbsoluteLessThan(a: BigNum, b: BigNum) returns (less: bool)
    requires a.Valid() && b.Valid()
    ensures less <==> Mag(a.digits) < Mag(b.digits)
  {
    var i := 5;
    while i > 0
      invariant 0 <= i <= 5 && a.digits[i..] == b.digits[i..]
    {
      i := i - 1;
      if a.digits[i] < b.digits[i] {
        TopDecides(a.digits, b.digits, i);
        return true;
      }
      if a.digits[i] > b.digits[i] {
        TopDecides(b.digits, a.digits, i);
        return false;
      }
    }
    return false;
  }

  /** Zero has two signs; only these two numbers compare unlike their values. */
  ghost predicate TwoZeros(a: BigNum, b: BigNum)
    reads a, b
  {
    a.sign != b.sign && Mag(a.digits) == 0 && Mag(b.digits) == 0
  }

  function Sign(x: int): int {
    if x < 0 then -1 else if x > 0 then 1 else 0
  }

  // ---------- The order of digits

  ghost predicate SameAbove(a: seq<int>, b: seq<int>, i: int)
    requires |a| == |b| && -1 <= i
  {
    forall j :: i < j < |a| ==> a[j] == b[j]
  }

  /** The most significant place below `n` in which two numbers differ; -1 if there is none. */
  ghost function TopDiffBelow(a: seq<int>, b: seq<int>, n: nat): (i: int)
    requires n <= |a| == |b|
    ensures -1 <= i < n && (i >= 0 ==> a[i] != b[i]) && forall j :: i < j < n ==> a[j] == b[j]
  {
    if n == 0 then -1 else if a[n - 1] != b[n - 1] then n - 1 else TopDiffBelow(a, b, n - 1)
  }

  ghost function TopDiff(a: seq<int>, b: seq<int>): (i: int)
    requires |a| == |b|
    ensures -1 <= i < |a| && (i >= 0 ==> a[i] != b[i]) && SameAbove(a, b, i)
  {
    TopDiffBelow(a, b, |a|)
  }

  lemma TopDiffIs(a: seq<int>, b: seq<int>, i: int)
    requires |a| == |b| && -1 <= i < |a| && SameAbove(a, b, i) && (i >= 0 ==> a[i] != b[i])
    ensures TopDiff(a, b) == i && TopDiff(b, a) == i
  {
    hide TopDiff;
  }

  /** The order the top differing digit decides. */
  ghost function DigitOrder(a: seq<int>, b: seq<int>): int
    requires |a| == |b|
  {
    var i := TopDiff(a, b);
    if i < 0 then 0 else Sign(a[i] - b[i])
  }

  /** Digits below that of `a` make up for its top differing digit being one less. */
  ghost predicate Overhangs(a: seq<int>, b: seq<int>)
    requires |a| == |b|
  {
    var i := TopDiff(a, b);
    i >= 0 && a[i] + 1 == b[i] && Mag(a[..i]) - Mag(b[..i]) >= Power(i)
  }

  ghost function Power(n: nat): (p: nat)
    ensures p > 0
  {
    if n == 0 then 1 else LIMIT * Power(n - 1)
  }

  lemma {:induction false} MagSplit(d: seq<int>, i: nat)
    requires i <= |d|
    ensures Mag(d) == Mag(d[..i]) + Power(i) * Mag(d[i..])
  {
    if i == 0 {
      assert d[0..] == d && d[..0] == [];
    } else {
      MagSplit(d[1..], i - 1);
      assert d[1..][..i - 1] == d[..i][1..] && d[1..][i - 1..] == d[i..];
      Regroup(Power(i - 1), Mag(d[i..]));
    }
  }

  lemma Regroup(p: int, m: int)
    ensures LIMIT * (p * m) == (LIMIT * p) * m
  {
  }

  /** Digits an addition can leave. */
  ghost predicate Filled(d: seq<int>) {
    forall i :: 0 <= i < |d| ==> 0 <= d[i] <= LIMIT
  }

  lemma {:induction false} FilledBound(d: seq<int>)
    requires Filled(d)
    ensures 0 <= Mag(d) && (LIMIT - 1) * Mag(d) <= LIMIT * (Power(|d|) - 1)
  {
    if d != [] {
      FilledBound(d[1..]);
    }
  }

  lemma {:induction false} ProperBound(d: seq<int>)
    requires Proper(d)
    ensures 0 <= Mag(d) < Power(|d|)
  {
    if d != [] {
      ProperBound(d[1..]);
    }
  }

  lemma MagFrom(d: seq<int>, i: nat)
    requires i < |d|
    ensures Mag(d[i..]) == d[i] + LIMIT * Mag(d[i + 1..])
  {
    assert d[i..][1..] == d[i + 1..];
  }

  /** The difference of two numbers, taken apart at their top differing digit. */
  lemma Difference(a: seq<int>, b: seq<int>, i: nat)
    requires |a| == |b| && i < |a| && SameAbove(a, b, i)
    ensures Mag(a) - Mag(b) == Mag(a[..i]) - Mag(b[..i]) + Power(i) * (a[i] - b[i])
  {
    hide Power, Mag;
    MagSplit(a, i);
    MagSplit(b, i);
    MagFrom(a, i);
    MagFrom(b, i);
    assert a[i + 1..] == b[i + 1..];
    Distribute(Power(i), Mag(a[i..]), Mag(b[i..]));
  }

  lemma Distribute(p: int, x: int, y: int)
    ensures p * x - p * y == p * (x - y)
  {
  }

  /** With the smaller top differing digit a number is smaller, unless the digits below overhang. */
  lemma LowerDigit(a: seq<int>, b: seq<int>, i: nat)
    requires |a| == |b| && i < |a| && Filled(a) && Filled(b) && SameAbove(a, b, i) && a[i] < b[i]
    ensures Mag(a) < Mag(b) <==> !Overhangs(a, b)
    ensures !Overhangs(b, a)
  {
    hide Mag, Power, TopDiff;
    TopDiffIs(a, b, i);
    Difference(a, b, i);
    FilledBound(a[..i]);
    FilledBound(b[..i]);
    TwoApart(Power(i), b[i] - a[i]);
  }

  lemma TwoApart(p: int, k: int)
    requires p > 0
    ensures k == 1 ==> p * -k == -p
    ensures k >= 2 ==> p * -k <= -2 * p
  {
    if k >= 2 {
      assert p * (k - 2) >= 0;
    }
  }

  /** Comparing sums digit by digit gives the order of their values exactly when no digits overhang. */
  lemma DigitOrderRight(a: seq<int>, b: seq<int>)
    requires |a| == |b| && Filled(a) && Filled(b)
    ensures DigitOrder(a, b) == Sign(Mag(a) - Mag(b)) <==> !Overhangs(a, b) && !Overhangs(b, a)
  {
    hide Mag, Power, Overhangs, TopDiff;
    var i := TopDiff(a, b);
    if i < 0 {
      assert a == b;
      NoOverhang(a);
    } else if a[i] < b[i] {
      LowerDigit(a, b, i);
    } else {
      LowerDigit(b, a, i);
    }
  }

  lemma NoOverhang(a: seq<int>)
    ensures !Overhangs(a, a)
  {
  }

  /** Proper digits never overhang. */
  lemma ProperOrder(a: seq<int>, b: seq<int>)
    requires |a| == |b| && Proper(a) && Proper(b)
    ensures DigitOrder(a, b) == Sign(Mag(a) - Mag(b))
  {
    hide Mag, Power, TopDiff, DigitOrder;
    DigitOrderRight(a, b);
    var i := TopDiff(a, b);
    TopDiffIs(a, b, i);
    if i >= 0 {
      ProperBound(a[..i]);
      ProperBound(b[..i]);
    }
  }

  /**
    `_CFBigNumCompare`: the signs decide, or else the top differing digit. For proper numbers
    this is the order of the values, unless both are zero with different signs.
   */
  method Compare(a: BigNum, b: BigNum) returns (order: int)
    requires |a.digits| == 5 && |b.digits| == 5
    ensures -1 <= order <= 1
    ensures a.sign != b.sign ==> order == if a.sign < b.sign then -1 else 1
    ensures a.sign == b.sign ==>
              order == if a.sign < 0 then -DigitOrder(a.digits, b.digits) else DigitOrder(a.digits, b.digits)
    ensures a.Valid() && b.Valid() ==> (order == Sign(a.Value() - b.Value()) <==> !TwoZeros(a, b))
  {
    hide Mag, TopDiff, Proper;
    if a.Valid() && b.Valid() {
      MagBounds(a.digits);
      MagBounds(b.digits);
      ProperOrder(a.digits, b.digits);
    }
    if a.sign == b.sign {
      var negative := a.sign < 0;
      var i := 5;
      while i > 0
        invariant 0 <= i <= 5 && SameAbove(a.digits, b.digits, i - 1)
      {
        i := i - 1;
        if a.digits[i] < b.digits[i] {
          TopDiffIs(a.digits, b.digits, i);
          return if !negative then -1 else 1;
        }
        if a.digits[i] > b.digits[i] {
          TopDiffIs(a.digits, b.digits, i);
          return if negative then -1 else 1;
        }
      }
      TopDiffIs(a.digits, b.digits, -1);
      return 0;
    }
    return if a.sign < b.sign then -1 else 1;
  }

  /** The sign `_CFBigNumNeg` gives. */
  ghost function NegatedSign(sign: int, digits: seq<int>): int {
    if Mag(digits) == 0 then sign else -1 - sign
  }

  /** `_CFBigNumNeg`; the result may be the operand itself. */
  method Neg(r: BigNum, a: BigNum)
    requires a.Valid()
    modifies r
    ensures r.Valid() && r.Value() == -old(a.Value()) && r.digits == old(a.digits)
    ensures r.sign == NegatedSign(old(a.sign), old(a.digits))
  {
    r.digits, r.sign := a.digits, a.sign;
    MagZero(r.digits);
    var aIsZero := true;
    var i := 0;
    while i < 5
      invariant 0 <= i <= 5 && aIsZero && forall j :: 0 <= j < i ==> r.digits[j] == 0
    {
      if r.digits[i] != 0 {
        aIsZero := false;
        break;
      }
      i := i + 1;
    }
    assert aIsZero ==> r.digits == [0, 0, 0, 0, 0];
    if !aIsZero {
      r.sign := r.sign * r.sign - 1;
    }
  }

  /** The digits of an operand from `i` on are still there, even where the result overwrites it. */
  ghost predicate Unread(d: seq<int>, was: seq<int>, i: nat) {
    |d| == |was| && forall j :: i <= j < |was| ==> d[j] == was[j]
  }

  /** The first `i` digits of a sum are right. */
  ghost predicate Adding(a: seq<int>, b: seq<int>, r: seq<int>, carry: int)
    requires |r| <= |a| == |b|
  {
    && 0 <= carry <= 1 && carry == CarryInto(a, b, |r|)
    && Mag(r + [SumRest(a, b, |r|, carry)]) == Mag(a) + Mag(b)
    && forall j :: 0 <= j < |r| ==> 0 <= r[j] <= LIMIT && (r[j] == LIMIT <==> FullAt(a, b, j))
  }

  lemma AddStart(a: seq<int>, b: seq<int>)
    requires |a| == |b|
    ensures Adding(a, b, [], 0)
  {
    assert a[0..] == a && b[0..] == b;
    assert [SumRest(a, b, 0, 0)][1..] == [] && [] + [SumRest(a, b, 0, 0)] == [SumRest(a, b, 0, 0)];
  }

  lemma AddStep(a: seq<int>, b: seq<int>, r: seq<int>, carry: int, result: int, carry': int)
    requires |r| < |a| == |b| && Proper(a) && Proper(b) && Adding(a, b, r, carry)
    requires var sum := a[|r|] + b[|r|] + carry;
             if sum > LIMIT then carry' == 1 && result == sum - LIMIT else carry' == 0 && result == sum
    ensures Adding(a, b, r + [result], carry')
  {
    var i := |r|;
    AddDigit(a, b, r, i, carry, result, carry');
    assert r + [result] + [SumRest(a, b, i + 1, carry')] == r + [result, SumRest(a, b, i + 1, carry')];
  }

  lemma AddEnd(a: seq<int>, b: seq<int>, r: seq<int>, carry: int)
    requires |r| == |a| == |b| == 5 && Adding(a, b, r, carry)
    ensures 0 <= carry <= 1 && Mag(r) + LIMIT_5 * carry == Mag(a) + Mag(b)
    ensures forall i :: 0 <= i < 5 ==> 0 <= r[i] <= LIMIT && (r[i] == LIMIT <==> FullAt(a, b, i))
  {
    TopOfFive(r, SumRest(a, b, 5, carry));
  }

  /** The same-sign branch of `_CFBigNumAdd`, in place: the result may be an operand. */
  method AddDigits(r: BigNum, a: BigNum, b: BigNum) returns (carry: int)
    requires a.Valid() && b.Valid() && |r.digits| == 5
    modifies r`digits
    ensures |r.digits| == 5 && 0 <= carry <= 1
    ensures Mag(r.digits) + LIMIT_5 * carry == Mag(old(a.digits)) + Mag(old(b.digits))
    ensures forall i :: 0 <= i < 5 ==> 0 <= r.digits[i] <= LIMIT
    ensures forall i :: 0 <= i < 5 ==> (r.digits[i] == LIMIT <==> FullAt(old(a.digits), old(b.digits), i))
  {
    hide Adding, Mag, FullAt;
    ghost var x, y := a.digits, b.digits;
    AddStart(x, y);
    carry := 0;
    var i := 0;
    while i < 5
      invariant 0 <= i <= 5 && |r.digits| == 5 && Unread(a.digits, x, i) && Unread(b.digits, y, i)
      invariant Adding(x, y, r.digits[..i], carry)
    {
      var result := a.digits[i] + b.digits[i] + carry;
      ghost var before := carry;
      if result > LIMIT {
        carry := 1;
        result := result - LIMIT;
      } else {
        carry := 0;
      }
      ghost var done := r.digits[..i];
      AddStep(x, y, done, before, result, carry);
      r.digits := r.digits[i := result];
      assert r.digits[..i + 1] == done + [result];
      i := i + 1;
    }
    assert r.digits[..5] == r.digits;
    AddEnd(x, y, r.digits, carry);
  }

  ghost predicate Subtracting(a: seq<int>, b: seq<int>, r: seq<int>, borrow: int)
    requires |r| <= |a| == |b|
  {
    0 <= borrow <= 1 && Proper(r) && Mag(r + [DiffRest(a, b, |r|, borrow)]) == Mag(a) - Mag(b)
  }

  lemma SubStart(a: seq<int>, b: seq<int>)
    requires |a| == |b|
    ensures Subtracting(a, b, [], 0)
  {
    assert a[0..] == a && b[0..] == b;
    assert [DiffRest(a, b, 0, 0)][1..] == [] && [] + [DiffRest(a, b, 0, 0)] == [DiffRest(a, b, 0, 0)];
  }

  lemma SubStep(a: seq<int>, b: seq<int>, r: seq<int>, borrow: int, result: int, borrow': int)
    requires |r| < |a| == |b| && Proper(a) && Proper(b) && Subtracting(a, b, r, borrow)
    requires var diff := a[|r|] - b[|r|] - borrow;
             if diff < 0 then borrow' == 1 && result == diff + LIMIT else borrow' == 0 && result == diff
    ensures Subtracting(a, b, r + [result], borrow')
  {
    var i := |r|;
    SubDigit(a, b, r, i, borrow, result, borrow');
    assert r + [result] + [DiffRest(a, b, i + 1, borrow')] == r + [result, DiffRest(a, b, i + 1, borrow')];
  }

  /** With the larger magnitude first nothing is left to borrow. */
  lemma SubEnd(a: seq<int>, b: seq<int>, r: seq<int>, borrow: int)
    requires |r| == |a| == |b| == 5 && Subtracting(a, b, r, borrow) && Mag(b) <= Mag(a)
    ensures borrow == 0 && Proper(r) && Mag(r) == Mag(a) - Mag(b)
  {
    assert a[5..] == [] && b[5..] == [] && DiffRest(a, b, 5, borrow) == -borrow;
    LastBorrow(a, b, r, borrow);
  }

  lemma LastBorrow(a: seq<int>, b: seq<int>, r: seq<int>, borrow: int)
    requires |r| == 5 && 0 <= borrow <= 1 && Proper(r) && Mag(r + [-borrow]) == Mag(a) - Mag(b) >= 0
    ensures borrow == 0 && Mag(r) == Mag(a) - Mag(b)
  {
    hide Mag;
    TopOfFive(r, -borrow);
    MagBounds(r);
  }

  /** The other branch of `_CFBigNumAdd`: the smaller magnitude from the larger, in place. */
  method SubDigits(r: BigNum, bigNum: BigNum, smallNum: BigNum) returns (carry: int)
    requires bigNum.Valid() && smallNum.Valid() && |r.digits| == 5 && Mag(smallNum.digits) <= Mag(bigNum.digits)
    modifies r`digits
    ensures |r.digits| == 5 && Proper(r.digits) && carry == 0
    ensures Mag(r.digits) == Mag(old(bigNum.digits)) - Mag(old(smallNum.digits))
  {
    hide Subtracting, Mag;
    ghost var x, y := bigNum.digits, smallNum.digits;
    SubStart(x, y);
    carry := 0;
    var i := 0;
    while i < 5
      invariant 0 <= i <= 5 && |r.digits| == 5 && Unread(bigNum.digits, x, i) && Unread(smallNum.digits, y, i)
      invariant Subtracting(x, y, r.digits[..i], carry)
    {
      var result := bigNum.digits[i] - smallNum.digits[i] - carry;
      ghost var before := carry;
      if result < 0 {
        carry := 1;
        result := result + LIMIT;
      } else {
        carry := 0;
      }
      ghost var done := r.digits[..i];
      SubStep(x, y, done, before, result, carry);
      r.digits := r.digits[i := result];
      assert r.digits[..i + 1] == done + [result];
      i := i + 1;
    }
    assert r.digits[..5] == r.digits;
    SubEnd(x, y, r.digits, carry);
  }

  /**
    `_CFBigNumAdd`: exact up to the carry out of the fifth digit; the result may be an
    operand. With equal signs the sum is a proper number exactly when no digit sum is one billion.
   */
  method Add(r: BigNum, a: BigNum, b: BigNum) returns (carry: int)
    requires a.Valid() && b.Valid() && |r.digits| == 5
    modifies r
    ensures |r.digits| == 5 && (r.sign == 0 || r.sign == -1)
    ensures old(a.sign == b.sign) ==> 0 <= carry <= 1 && r.sign == old(a.sign)
    ensures old(a.sign == b.sign) ==> Mag(r.digits) + LIMIT_5 * carry == Mag(old(a.digits)) + Mag(old(b.digits))
    ensures old(a.sign == b.sign) ==> forall i :: 0 <= i < 5 ==> 0 <= r.digits[i] <= LIMIT
    ensures old(a.sign == b.sign) ==>
              forall i :: 0 <= i < 5 ==> (r.digits[i] == LIMIT <==> FullAt(old(a.digits), old(b.digits), i))
    ensures old(a.sign == b.sign) ==> (r.Valid() <==> NoneFull(old(a.digits), old(b.digits)))
    ensures old(a.sign != b.sign) ==> carry == 0 && r.Valid() && r.Value() == old(a.Value() + b.Value())
    ensures old(a.sign != b.sign) && Mag(r.digits) == 0 ==> r.sign == old(a.sign)
  {
    hide Mag, FullAt;
    if a.sign == b.sign {
      var sign := a.sign;
      carry := AddDigits(r, a, b);
      r.sign := sign;
    } else {
      var less := AbsoluteLessThan(a, b);
      var bigNum, smallNum := if less then b else a, if less then a else b;
      carry := SubDigits(r, bigNum, smallNum);
      r.sign := if bigNum.sign < 0 then -1 else 0;
    }
  }

  /** `_CFBigNumSub`. */
  method Sub(r: BigNum, a: BigNum, b: BigNum) returns (carry: int)
    requires a.Valid() && b.Valid() && |r.digits| == 5
    modifies r
    ensures |r.digits| == 5 && (r.sign == 0 || r.sign == -1) && 0 <= carry <= 1
    ensures r.Value() + (if old(a.sign) < 0 then -LIMIT_5 else LIMIT_5) * carry == old(a.Value() - b.Value())
    ensures r.Valid() <==>
            (old(a.sign) == NegatedSign(old(b.sign), old(b.digits)) ==> NoneFull(old(a.digits), old(b.digits)))
  {
    hide Mag, FullAt;
    var nb := new BigNum();
    Neg(nb, b);
    carry := Add(r, a, nb);
  }

  /** 999999999 + 1 leaves the digit one billion. */
  method FullDigit() returns (a: BigNum, b: BigNum, r: BigNum)
    ensures a.Valid() && a.Value() == 999_999_999 && b.Valid() && b.Value() == 1
    ensures r.Value() == a.Value() + b.Value() && r.digits == [LIMIT, 0, 0, 0, 0] && r.sign == 0 && !r.Valid()
  {
    hide Mag;
    a := new BigNum();
    b := new BigNum();
    a.digits, b.digits := [LIMIT - 1, 0, 0, 0, 0], [1, 0, 0, 0, 0];
    r := new BigNum();
    FiveDigits(a.digits);
    FiveDigits(b.digits);
    assert CarryInto(a.digits, b.digits, 0) == 0;
    assert FullAt(a.digits, b.digits, 0);
    var carry := Add(r, a, b);
    FiveDigits(r.digits);
    assert r.digits[0] == LIMIT;
    assert r.digits == [LIMIT, 0, 0, 0, 0];
  }

  /** The sum 999999999 + 1 compares below one billion, although it is one billion. */
  method FullDigitCompares() returns (sum: BigNum, c: BigNum, order: int)
    ensures sum.Value() == c.Value() == LIMIT && c.Valid() && order == -1
  {
    hide Mag;
    var a, b;
    a, b, sum := FullDigit();
    c := new BigNum();
    c.digits := [0, 1, 0, 0, 0];
    FiveDigits(c.digits);
    TopDiffIs(sum.digits, c.digits, 1);
    order := Compare(sum, c);
  }

  /** Minus five plus five is zero with a minus sign, and so compares below zero. */
  method NegativeZero() returns (sum: BigNum, order: int)
    ensures sum.Value() == 0 && order == -1
  {
    var a := new BigNum();
    var b := new BigNum();
    a.digits, a.sign, b.digits := [5, 0, 0, 0, 0], -1, [5, 0, 0, 0, 0];
    FiveDigits(a.digits);
    sum := new BigNum();
    var _ := Add(sum, a, b);
    var zero := new BigNum();
    FiveDigits(zero.digits);
    order := Compare(sum, zero);
  }

  // ---------- Machine integers

  /** What a C integer of 32 bits keeps. */
  function Wrap32(x: int): (r: int)
    ensures -TWO31 <= r < TWO31
    ensures -TWO31 <= x < TWO31 ==> r == x
  {
    (x + TWO31) % TWO32 - TWO31
  }

  lemma Wrap32Add(x: int, y: int)
    ensures Wrap32(Wrap32(x) + y) == Wrap32(x + y)
  {
    var k := (x + TWO31) / TWO32;
    assert Wrap32(x) + y + TWO31 == x + y + TWO31 - TWO32 * k;
  }

  lemma Wrap32Neg(x: int)
    ensures Wrap32(-Wrap32(x)) == Wrap32(-x)
  {
    var k := (x + TWO31) / TWO32;
    assert -Wrap32(x) + TWO31 == -x + TWO31 + TWO32 * k;
  }

  /** What a C integer of 64 bits keeps. */
  function Wrap64(x: int): (r: int)
    ensures -TWO63 <= r < TWO63
    ensures -TWO63 <= x < TWO63 ==> r == x
  {
    (x + TWO63) % TWO64 - TWO63
  }

  lemma Wrap64Add(x: int, y: int)
    ensures Wrap64(Wrap64(x) + y) == Wrap64(x + y)
  {
    var k := (x + TWO63) / TWO64;
    assert Wrap64(x) + y + TWO63 == x + y + TWO63 - TWO64 * k;
  }

  lemma Wrap64Neg(x: int)
    ensures Wrap64(-Wrap64(x)) == Wrap64(-x)
  {
    var k := (x + TWO63) / TWO64;
    assert -Wrap64(x) + TWO63 == -x + TWO63 + TWO64 * k;
  }

  /** What a C integer of 128 bits keeps. */
  function Wrap128(x: int): (r: int)
    ensures -TWO127 <= r < TWO127
    ensures -TWO127 <= x < TWO127 ==> r == x
  {
    (x + TWO127) % TWO128 - TWO127
  }

  lemma Wrap128Add(x: int, y: int)
    ensures Wrap128(Wrap128(x) + y) == Wrap128(x + y)
  {
    var k := (x + TWO127) / TWO128;
    assert Wrap128(x) + y + TWO127 == x + y + TWO127 - TWO128 * k;
  }

  lemma Wrap128Neg(x: int)
    ensures Wrap128(-Wrap128(x)) == Wrap128(-x)
  {
    var k := (x + TWO127) / TWO128;
    assert -Wrap128(x) + TWO127 == -x + TWO127 + TWO128 * k;
  }

  /** `_CFBigNumInitWithInt32`. */
  method InitWithInt32(r: BigNum, inNum: int)
    requires -TWO31 <= inNum < TWO31
    modifies r
    ensures r.Valid() && r.Value() == inNum && (r.sign < 0 <==> inNum < 0)
  {
    var rest := if inNum < 0 then -inNum else inNum;
    var dig1 := rest / LIMIT;
    r.digits, r.sign := [rest - dig1 * LIMIT, dig1, 0, 0, 0], if inNum < 0 then -1 else 0;
    FiveDigits(r.digits);
  }

  /** `_CFBigNumInitWithInt64`; the magnitude of the least integer fits the unsigned type. */
  method InitWithInt64(r: BigNum, inNum: int)
    requires -TWO63 <= inNum < TWO63
    modifies r
    ensures r.Valid() && r.Value() == inNum && (r.sign < 0 <==> inNum < 0)
  {
    var rest := if inNum < 0 then -inNum else inNum;
    var dig2 := rest / LIMIT_2;
    rest := rest - dig2 * LIMIT_2;
    var dig1 := rest / LIMIT;
    r.digits, r.sign := [rest - dig1 * LIMIT, dig1, dig2, 0, 0], if inNum < 0 then -1 else 0;
    FiveDigits(r.digits);
  }

  /** `_CFBigNumInitWithInt128`. */
  method InitWithInt128(r: BigNum, inNum: int)
    requires -TWO127 <= inNum < TWO127
    modifies r
    ensures r.Valid() && r.Value() == inNum && (r.sign < 0 <==> inNum < 0)
  {
    var rest := if inNum < 0 then -inNum else inNum;
    hide Mag;
    var dig4 := rest / LIMIT_4;
    rest := rest - dig4 * LIMIT_4;
    var dig3 := rest / LIMIT_3;
    rest := rest - dig3 * LIMIT_3;
    var dig2 := rest / LIMIT_2;
    rest := rest - dig2 * LIMIT_2;
    var dig1 := rest / LIMIT;
    r.digits, r.sign := [rest - dig1 * LIMIT, dig1, dig2, dig3, dig4], if inNum < 0 then -1 else 0;
    FiveDigits(r.digits);
  }

  /** `_CFBigNumGetInt32`: the value exactly when it is in range. */
  method GetInt32(num: BigNum) returns (result: int)
    requires num.Valid()
    ensures result == num.Value() <==> -TWO31 <= num.Value() < TWO31
  {
    hide Wrap32, Wrap64, Wrap128;
    FiveDigits(num.digits);
    var d := num.digits;
    Wrap32Add(d[0], d[1] * LIMIT);
    Wrap32Neg(d[0] + d[1] * LIMIT);
    result := Wrap32(d[0]);
    result := Wrap32(result + d[1] * LIMIT);
    if num.sign < 0 {
      result := Wrap32(-result);
    }
  }

  ghost function LowThree(d: seq<int>): int
    requires |d| == 5
  {
    d[0] + LIMIT * d[1] + LIMIT_2 * d[2]
  }

  lemma OnlyLowThree(d: seq<int>)
    requires |d| == 5 && Proper(d)
    ensures Mag(d) < LIMIT_3 ==> Mag(d) == LowThree(d)
    ensures Mag(d) >= 0
  {
    hide Mag;
    FiveDigits(d);
    MagBounds(d);
  }

  /** `_CFBigNumGetInt64`: the value exactly when it is in range. */
  method GetInt64(num: BigNum) returns (result: int)
    requires num.Valid()
    ensures result == num.Value() <==> -TWO63 <= num.Value() < TWO63
  {
    hide Wrap64, Mag;
    OnlyLowThree(num.digits);
    var d := num.digits;
    Wrap64Add(d[0], d[1] * LIMIT);
    Wrap64Add(d[0] + d[1] * LIMIT, d[2] * LIMIT_2);
    Wrap64Neg(LowThree(d));
    result := Wrap64(d[0]);
    result := Wrap64(result + d[1] * LIMIT);
    result := Wrap64(result + d[2] * LIMIT_2);
    assert result == Wrap64(LowThree(d));
    if num.sign < 0 {
      result := Wrap64(-result);
    }
  }

  /** `_CFBigNumGetInt128`: the value exactly when it is in range. */
  method GetInt128(num: BigNum) returns (result: int)
    requires num.Valid()
    ensures result == num.Value() <==> -TWO127 <= num.Value() < TWO127
  {
    hide Wrap32, Wrap64, Wrap128;
    FiveDigits(num.digits);
    var d := num.digits;
    var low := d[0] + d[1] * LIMIT + d[2] * LIMIT_2;
    Wrap128Add(d[0], d[1] * LIMIT);
    Wrap128Add(d[0] + d[1] * LIMIT, d[2] * LIMIT_2);
    Wrap128Add(low, d[3] * LIMIT_3);
    Wrap128Add(low + d[3] * LIMIT_3, d[4] * LIMIT_4);
    Wrap128Neg(low + d[3] * LIMIT_3 + d[4] * LIMIT_4);
    result := Wrap128(d[0]);
    result := Wrap128(result + d[1] * LIMIT);
    result := Wrap128(result + d[2] * LIMIT_2);
    result := Wrap128(result + d[3] * LIMIT_3);
    result := Wrap128(result + d[4] * LIMIT_4);
    if num.sign < 0 {
      result := Wrap128(-result);
    }
  }
}
