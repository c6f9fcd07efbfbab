/** CFBitVector: bits in byte buckets, most significant bit first, changed through masks. */
module BitVector {
  // ---------- One bucket

  /** The mask of bit `j`; bit 0 is the most significant. */
  function OneBit(j: nat): bv8
    requires j < 8
  {
    match j
    case 0 => 0x80
    case 1 => 0x40
    case 2 => 0x20
    case 3 => 0x10
    case 4 => 0x08
    case 5 => 0x04
    case 6 => 0x02
    case 7 => 0x01
  }

  predicate Meets(b: bv8, m: bv8) {
    b & m != 0
  }

  /** Bit `j` of a bucket. */
  predicate BitOf(b: bv8, j: nat)
    requires j < 8
  {
    Meets(b, OneBit(j))
  }

  function ShiftLeft(b: bv8, n: nat): bv8
    requires n < 8
  {
    match n
    case 0 => b
    case 1 => b << 1
    case 2 => b << 2
    case 3 => b << 3
    case 4 => b << 4
    case 5 => b << 5
    case 6 => b << 6
    case 7 => b << 7
  }

  function ShiftRight(b: bv8, n: nat): bv8
    requires n < 8
  {
    match n
    case 0 => b
    case 1 => b >> 1
    case 2 => b >> 2
    case 3 => b >> 3
    case 4 => b >> 4
    case 5 => b >> 5
    case 6 => b >> 6
    case 7 => b >> 7
  }

  /** `__CFBitBucketMask`. */
  function Mask(bottomBit: nat, topBit: nat): bv8
    requires bottomBit <= topBit < 8
  {
    var shiftL := 8 - topBit + bottomBit - 1;
    ShiftRight(ShiftLeft(0xFF, shiftL), bottomBit)
  }

  /** The mask has exactly the bits of its range. */
  lemma MaskBits(bottomBit: nat, topBit: nat, j: nat)
    requires bottomBit <= topBit < 8 && j < 8
    ensures BitOf(Mask(bottomBit, topBit), j) <==> bottomBit <= j <= topBit
  {
  }

  function And8(b: bv8, m: bv8): bv8 {
    b & m
  }

  function Or8(b: bv8, m: bv8): bv8 {
    b | m
  }

  /** The bucket with the masked bits taken from `n`. */
  function Merge(b: bv8, n: bv8, mask: bv8): bv8 {
    Or8(And8(b, !mask), And8(n, mask))
  }

  lemma AndBits(b: bv8, m: bv8, j: nat)
    requires j < 8
    ensures BitOf(And8(b, m), j) <==> BitOf(b, j) && BitOf(m, j)
  {
    hide And8, Meets;
    AndMeets(b, m, OneBit(j));
  }

  predicate Single(k: bv8) {
    k == 0x80 || k == 0x40 || k == 0x20 || k == 0x10 || k == 0x08 || k == 0x04 || k == 0x02 || k == 0x01
  }

  lemma AndMeets(b: bv8, m: bv8, k: bv8)
    requires Single(k)
    ensures Meets(And8(b, m), k) <==> Meets(b, k) && Meets(m, k)
  {
  }

  lemma OrMeets(b: bv8, m: bv8, k: bv8)
    ensures Meets(Or8(b, m), k) <==> Meets(b, k) || Meets(m, k)
  {
  }

  lemma OrBits(b: bv8, m: bv8, j: nat)
    requires j < 8
    ensures BitOf(Or8(b, m), j) <==> BitOf(b, j) || BitOf(m, j)
  {
    hide Or8, Meets, OneBit;
    OrMeets(b, m, OneBit(j));
  }

  lemma SimpleBits(b: bv8, j: nat)
    requires j < 8
    ensures !BitOf(0, j) && BitOf(0xFF, j) && (BitOf(!b, j) <==> !BitOf(b, j)) && 0xFF ^ b == !b
  {
  }

  lemma MergeBits(b: bv8, n: bv8, mask: bv8, j: nat)
    requires j < 8
    ensures BitOf(Merge(b, n, mask), j) == if BitOf(mask, j) then BitOf(n, j) else BitOf(b, j)
  {
    hide BitOf, And8, Or8;
    OrBits(And8(b, !mask), And8(n, mask), j);
    AndBits(b, !mask, j);
    AndBits(n, mask, j);
    SimpleBits(mask, j);
  }

  lemma SameBucket(b: bv8, c: bv8)
    requires forall j :: 0 <= j < 8 ==> BitOf(b, j) == BitOf(c, j)
    ensures b == c
  {
    assert BitOf(b, 0) == BitOf(c, 0) && BitOf(b, 1) == BitOf(c, 1) && BitOf(b, 2) == BitOf(c, 2);
    assert BitOf(b, 3) == BitOf(c, 3) && BitOf(b, 4) == BitOf(c, 4) && BitOf(b, 5) == BitOf(c, 5);
    assert BitOf(b, 6) == BitOf(c, 6) && BitOf(b, 7) == BitOf(c, 7);
  }

  function One(p: bool): nat { if p then 1 else 0 }

  /** How many of the bits `lo` to `hi` of a bucket have the given value. */
  function Matching(b: bv8, lo: nat, hi: nat, value: bool): nat {
    One(lo <= 0 < hi && BitOf(b, 0) == value) + One(lo <= 1 < hi && BitOf(b, 1) == value)
    + One(lo <= 2 < hi && BitOf(b, 2) == value) + One(lo <= 3 < hi && BitOf(b, 3) == value)
    + One(lo <= 4 < hi && BitOf(b, 4) == value) + One(lo <= 5 < hi && BitOf(b, 5) == value)
    + One(lo <= 6 < hi && BitOf(b, 6) == value) + One(lo <= 7 < hi && BitOf(b, 7) == value)
  }

  /** `__CFNibbleBitCount`. */
  function NibbleBitCount(n: bv8): nat {
    if n == 0 then 0
    else if n == 1 || n == 2 || n == 4 || n == 8 then 1
    else if n == 7 || n == 11 || n == 13 || n == 14 then 3
    else if n == 15 then 4 else 2
  }

  lemma Nibbles(v: bv8)
    ensures NibbleBitCount(v & 0xF) == One(BitOf(v, 4)) + One(BitOf(v, 5)) + One(BitOf(v, 6)) + One(BitOf(v, 7))
    ensures NibbleBitCount((v >> 4) & 0xF) == One(BitOf(v, 0)) + One(BitOf(v, 1)) + One(BitOf(v, 2)) + One(BitOf(v, 3))
  {
  }

  // ---------- Many buckets

  /** Bit `i` of the vector. */
  ghost predicate BitAt(b: seq<bv8>, i: nat)
    requires i < 8 * |b|
  {
    BitOf(b[i / 8], i % 8)
  }

  /** How many of the bits `lo` to `hi` have the given value. */
  ghost function Matches(b: seq<bv8>, lo: nat, hi: nat, value: bool): nat
    requires hi <= 8 * |b|
  {
    if hi <= lo then 0 else Matches(b, lo, hi - 1, value) + One(BitAt(b, hi - 1) == value)
  }

  /** The count is the number of places. */
  lemma {:induction false} MatchesAre(b: seq<bv8>, bits: seq<bool>, lo: nat, hi: nat, value: bool)
    requires lo <= hi <= |bits| <= 8 * |b| && forall i :: 0 <= i < |bits| ==> bits[i] == BitAt(b, i)
    ensures Matches(b, lo, hi, value) == |set i | lo <= i < hi && bits[i] == value|
  {
    hide BitAt;
    var s := set i | lo <= i < hi && bits[i] == value;
    if lo < hi {
      MatchesAre(b, bits, lo, hi - 1, value);
      OnePlaceMore(bits, lo, hi - 1, value);
    } else {
      assert s == {};
    }
  }

  lemma OnePlaceMore(bits: seq<bool>, lo: nat, hi: nat, value: bool)
    requires lo <= hi < |bits|
    ensures |set i | lo <= i < hi + 1 && bits[i] == value|
            == |set i | lo <= i < hi && bits[i] == value| + if bits[hi] == value then 1 else 0
  {
    var s, t := set i | lo <= i < hi + 1 && bits[i] == value, set i | lo <= i < hi && bits[i] == value;
    assert hi !in t && s == if bits[hi] == value then t + {hi} else t;
  }

  lemma {:induction false} MatchesJoin(b: seq<bv8>, lo: nat, mid: nat, hi: nat, value: bool)
    requires lo <= mid <= hi <= 8 * |b|
    ensures Matches(b, lo, hi, value) == Matches(b, lo, mid, value) + Matches(b, mid, hi, value)
  {
    if mid < hi {
      MatchesJoin(b, lo, mid, hi - 1, value);
    }
  }

  lemma {:induction false} MatchesSame(b: seq<bv8>, c: seq<bv8>, lo: nat, hi: nat, value: bool)
    requires hi <= 8 * |b| && |b| == |c|
    requires forall i :: lo <= i < hi ==> BitAt(b, i) == BitAt(c, i)
    ensures Matches(b, lo, hi, value) == Matches(c, lo, hi, value)
  {
    if lo < hi {
      MatchesSame(b, c, lo, hi - 1, value);
    }
  }

  lemma MatchingStep(b: bv8, lo: nat, hi: nat, value: bool)
    requires lo <= hi < 8
    ensures Matching(b, lo, lo, value) == 0
    ensures Matching(b, lo, hi + 1, value) == Matching(b, lo, hi, value) + One(BitOf(b, hi) == value)
  {
    hide BitOf;
  }

  /** Inside one bucket the two ways of counting agree. */
  lemma {:induction false} BucketMatches(b: seq<bv8>, k: nat, lo: nat, hi: nat, value: bool)
    requires k < |b| && lo <= hi <= 8
    ensures Matches(b, 8 * k + lo, 8 * k + hi, value) == Matching(b[k], lo, hi, value)
    decreases hi
  {
    hide Matching, BitOf;
    if lo < hi {
      BucketMatches(b, k, lo, hi - 1, value);
      MatchingStep(b[k], lo, hi - 1, value);
      assert (8 * k + hi - 1) / 8 == k && (8 * k + hi - 1) % 8 == hi - 1;
    } else if lo < 8 {
      MatchingStep(b[k], lo, lo, value);
    } else {
      assert Matching(b[k], 8, 8, value) == 0 by { NoMatching(b[k], value); }
    }
  }

  lemma NoMatching(b: bv8, value: bool)
    ensures Matching(b, 8, 8, value) == 0
  {
  }

  // ---------- The mappers

  /** What is done to each bucket. */
  datatype Mapper = ZeroBits | OneBits | FlipBits | CountBits(value: bool)

  function Mapped(m: Mapper, bit: bool): bool {
    match m
    case ZeroBits => false
    case OneBits => true
    case FlipBits => !bit
    case CountBits(_) => bit
  }

  lemma Tally(val: bv8, v: bv8, lo: nat, hi: nat, value: bool)
    requires forall j :: 0 <= j < 8 ==> (BitOf(val, j) <==> lo <= j < hi && BitOf(v, j) == value)
    ensures NibbleBitCount(val & 0xF) + NibbleBitCount((val >> 4) & 0xF) == Matching(v, lo, hi, value)
  {
    hide BitOf, NibbleBitCount;
    Nibbles(val);
  }

  /** `__CFBitVectorCountBits`: the bits of the wanted value under the mask, nibble by nibble. */
  method CountBucket(v: bv8, lo: nat, hi: nat, mask: bv8, value: bool, count: nat) returns (count': nat)
    requires lo <= hi <= 8 && forall j :: 0 <= j < 8 ==> (BitOf(mask, j) <==> lo <= j < hi)
    ensures count' == count + Matching(v, lo, hi, value)
  {
    hide BitOf, Matching, NibbleBitCount;
    var val := if value then v & mask else !v & mask;
    forall j | 0 <= j < 8 ensures BitOf(val, j) <==> lo <= j < hi && BitOf(v, j) == value {
      AndBits(v, mask, j);
      AndBits(!v, mask, j);
      SimpleBits(v, j);
    }
    Tally(val, v, lo, hi, value);
    count' := count + NibbleBitCount(val & 0xF);
    val := val >> 4;
    count' := count' + NibbleBitCount(val & 0xF);
  }

  /** One bucket's worth of a mapper: the new bucket value and the running count. */
  method Map(m: Mapper, v: bv8, lo: nat, hi: nat, mask: bv8, count: nat) returns (v': bv8, count': nat)
    requires lo <= hi <= 8 && forall j :: 0 <= j < 8 ==> (BitOf(mask, j) <==> lo <= j < hi)
    ensures forall j :: 0 <= j < 8 ==> BitOf(v', j) == Mapped(m, BitOf(v, j))
    ensures count' == count + if m.CountBits? then Matching(v, lo, hi, m.value) else 0
  {
    hide BitOf, Matching;
    forall j | 0 <= j < 8
      ensures !BitOf(0, j) && BitOf(0xFF, j) && (BitOf(0xFF ^ v, j) <==> !BitOf(v, j))
    {
      SimpleBits(v, j);
    }
    match m
    case ZeroBits => return 0, count;
    case OneBits => return 0xFF, count;
    case FlipBits => return 0xFF ^ v, count;
    case CountBits(value) =>
      count' := CountBucket(v, lo, hi, mask, value, count);
      v' := v;
  }

  /** The bits `lo` to `hi` of bucket `k` are mapped and no others. */
  ghost predicate BucketDone(b: seq<bv8>, b': seq<bv8>, k: nat, lo: nat, hi: nat, m: Mapper)
    requires k < |b|
  {
    && |b'| == |b| && (forall i :: 0 <= i < |b| && i != k ==> b'[i] == b[i])
    && forall j :: 0 <= j < 8 ==>
         BitOf(b'[k], j) == if lo <= j < hi then Mapped(m, BitOf(b[k], j)) else BitOf(b[k], j)
  }

  /** A mapper applied under a mask to part of a bucket. */
  method MapPart(buf: array<bv8>, k: nat, lo: nat, hi: nat, m: Mapper, count: nat) returns (count': nat)
    requires k < buf.Length && lo < hi <= 8
    modifies buf
    ensures BucketDone(old(buf[..]), buf[..], k, lo, hi, m)
    ensures count' == count + if m.CountBits? then Matching(old(buf[k]), lo, hi, m.value) else 0
  {
    hide BitOf, Matching, Mask, Merge;
    var mask := Mask(lo, hi - 1);
    forall j | 0 <= j < 8 ensures BitOf(mask, j) <==> lo <= j < hi {
      MaskBits(lo, hi - 1, j);
    }
    var v;
    v, count' := Map(m, buf[k], lo, hi, mask, count);
    forall j | 0 <= j < 8
      ensures BitOf(Merge(buf[k], v, mask), j) == if lo <= j < hi then BitOf(v, j) else BitOf(buf[k], j)
    {
      MergeBits(buf[k], v, mask, j);
    }
    buf[k] := Merge(buf[k], v, mask);
  }

  /** A mapper applied to a whole bucket. */
  method MapWhole(buf: array<bv8>, k: nat, m: Mapper, count: nat) returns (count': nat)
    requires k < buf.Length
    modifies buf
    ensures BucketDone(old(buf[..]), buf[..], k, 0, 8, m)
    ensures count' == count + if m.CountBits? then Matching(old(buf[k]), 0, 8, m.value) else 0
  {
    hide BitOf, Matching;
    forall j | 0 <= j < 8 ensures BitOf(0xFF, j) {
      SimpleBits(0, j);
    }
    var v;
    v, count' := Map(m, buf[k], 0, 8, 0xFF, count);
    buf[k] := v;
  }

  // ---------- The range

  /** Exactly the bits `lo` to `hi` are mapped, and counted if the mapper counts. */
  ghost predicate Done(b: seq<bv8>, b': seq<bv8>, lo: nat, hi: nat, m: Mapper, count: nat, count': nat)
    requires hi <= 8 * |b|
  {
    && |b'| == |b|
    && (forall i :: 0 <= i < 8 * |b| ==> BitAt(b', i) == if lo <= i < hi then Mapped(m, BitAt(b, i)) else BitAt(b, i))
    && count' == count + if m.CountBits? then Matches(b, lo, hi, m.value) else 0
  }

  /** Mapping the next bits, which lie in one bucket, extends what is done. */
  lemma Extend(b: seq<bv8>, b1: seq<bv8>, b2: seq<bv8>, lo: nat, k: nat, from: nat, to: nat, m: Mapper,
               count: nat, count1: nat, count2: nat)
    requires k < |b| && from < to <= 8 && lo <= 8 * k + from
    requires Done(b, b1, lo, 8 * k + from, m, count, count1) && BucketDone(b1, b2, k, from, to, m)
    requires count2 == count1 + if m.CountBits? then Matching(b1[k], from, to, m.value) else 0
    ensures Done(b, b2, lo, 8 * k + to, m, count, count2)
  {
    hide BitOf, Matching, Matches;
    forall i | 0 <= i < 8 * |b|
      ensures BitAt(b2, i) == if lo <= i < 8 * k + to then Mapped(m, BitAt(b, i)) else BitAt(b, i)
    {
      assert i / 8 == k ==> i == 8 * k + i % 8;
      assert i / 8 != k ==> b2[i / 8] == b1[i / 8];
    }
    if m.CountBits? {
      MatchesJoin(b, lo, 8 * k + from, 8 * k + to, m.value);
      MatchesSame(b, b1, 8 * k + from, 8 * k + to, m.value);
      BucketMatches(b1, k, from, to, m.value);
    }
  }

  lemma NothingDone(b: seq<bv8>, lo: nat, m: Mapper, count: nat)
    requires lo <= 8 * |b|
    ensures Done(b, b, lo, lo, m, count, count)
  {
  }

  /**
    `__CFBitVectorInternalMap`: a first part bucket, whole buckets and a last part bucket
    together map exactly the bits of the range.
   */
  method InternalMap(buf: array<bv8>, loc: nat, len: nat, m: Mapper, count: nat) returns (count': nat)
    requires loc + len <= 8 * buf.Length
    modifies buf
    ensures Done(old(buf[..]), buf[..], loc, loc + len, m, count, count')
  {
    hide Done, BucketDone, Matching;
    ghost var b := buf[..];
    NothingDone(b, loc, m, count);
    count' := count;
    if len == 0 {
      return;
    }
    var bucketIdx, bitOfBucket := loc / 8, loc % 8;
    var length := len;
    ghost var c := count';
    if bitOfBucket + length < 8 {
      count' := MapPart(buf, bucketIdx, bitOfBucket, bitOfBucket + length, m, count');
      Extend(b, b, buf[..], loc, bucketIdx, bitOfBucket, bitOfBucket + length, m, count, c, count');
      length := 0;
    } else {
      count' := MapPart(buf, bucketIdx, bitOfBucket, 8, m, count');
      Extend(b, b, buf[..], loc, bucketIdx, bitOfBucket, 8, m, count, c, count');
      length := length - (8 - bitOfBucket);
    }
    bucketIdx := bucketIdx + 1;
    var nBuckets := length / 8;
    length := length - nBuckets * 8;
    assert len + loc == if loc % 8 + len < 8 then loc + len else 8 * bucketIdx + 8 * nBuckets + length;
    while nBuckets > 0
      invariant nBuckets >= 0 && 0 <= length < 8
      invariant loc % 8 + len < 8 ==> nBuckets == 0 && length == 0
      invariant loc % 8 + len < 8 ==> Done(b, buf[..], loc, loc + len, m, count, count')
      invariant loc % 8 + len >= 8 ==> loc + len == 8 * bucketIdx + 8 * nBuckets + length && loc <= 8 * bucketIdx
      invariant loc % 8 + len >= 8 ==> Done(b, buf[..], loc, 8 * bucketIdx, m, count, count')
    {
      ghost var b1 := buf[..];
      c := count';
      count' := MapWhole(buf, bucketIdx, m, count');
      Extend(b, b1, buf[..], loc, bucketIdx, 0, 8, m, count, c, count');
      bucketIdx := bucketIdx + 1;
      nBuckets := nBuckets - 1;
    }
    if length != 0 {
      ghost var b1 := buf[..];
      c := count';
      count' := MapPart(buf, bucketIdx, 0, length, m, count');
      Extend(b, b1, buf[..], loc, bucketIdx, 0, length, m, count, c, count');
    }
  }

  // ---------- The vector

  /** `__CFBitVectorRoundUpCapacity`. */
  function RoundUpCapacity(capacity: nat): (r: nat)
    ensures capacity <= r && r % 64 == 0 && 0 < r < capacity + 65
  {
    var c := if capacity == 0 then 1 else capacity;
    (c + 63) / 64 * 64
  }

  class Vector {
    var count: nat
    var buckets: array<bv8>

    ghost predicate Valid()
      reads this
    {
      count <= 8 * buckets.Length
    }

    /** The bits in use. */
    ghost function Bits(): (s: seq<bool>)
      reads this, buckets
      requires Valid()
      ensures |s| == count && forall i :: 0 <= i < count ==> s[i] == BitAt(buckets[..], i)
    {
      seq(count, i requires 0 <= i < count && Valid() reads this, buckets => BitAt(buckets[..], i))
    }

    constructor ()
      ensures Valid() && Bits() == [] && fresh(buckets)
    {
      count := 0;
      buckets := new bv8[RoundUpCapacity(0) / 8 + 1];
    }

    /** `CFBitVectorGetCountOfBit`: the number of matching bits; nothing is changed. */
    method GetCountOfBit(loc: nat, len: nat, value: bool) returns (n: nat)
      requires Valid() && loc + len <= count
      modifies buckets
      ensures buckets[..] == old(buckets[..]) && n == Matches(buckets[..], loc, loc + len, value)
      ensures n == |set i | loc <= i < loc + len && Bits()[i] == value|
    {
      hide BitAt;
      ghost var b, bits := buckets[..], Bits();
      n := 0;
      if len > 0 {
        n := InternalMap(buckets, loc, len, CountBits(value), 0);
        SameBits(b, buckets[..]);
      }
      MatchesAre(b, bits, loc, loc + len, value);
      assert Bits() == bits;
      assert (set i | loc <= i < loc + len && Bits()[i] == value) == set i | loc <= i < loc + len && bits[i] == value;
    }

    /** `CFBitVectorSetBits`. */
    method SetBits(loc: nat, len: nat, value: bool)
      requires Valid() && loc + len <= count
      modifies buckets
      ensures Bits() == Painted(old(Bits()), loc, len, value)
      ensures forall i :: 0 <= i < count ==> Bits()[i] == if loc <= i < loc + len then value else old(Bits())[i]
    {
      hide BitAt;
      if len == 0 {
        return;
      }
      var _ := InternalMap(buckets, loc, len, if value then OneBits else ZeroBits, 0);
    }

    /** `CFBitVectorFlipBits`. */
    method FlipBits(loc: nat, len: nat)
      requires Valid() && loc + len <= count
      modifies buckets
      ensures Bits() == Flipped(old(Bits()), loc, len)
      ensures forall i :: 0 <= i < count ==> Bits()[i] == if loc <= i < loc + len then !old(Bits())[i] else old(Bits())[i]
    {
      hide BitAt;
      if len == 0 {
        return;
      }
      var _ := InternalMap(buckets, loc, len, Mapper.FlipBits, 0);
    }

    /** `CFBitVectorSetAllBits`: whole buckets at once, and the rest through the mask. */
    method SetAllBits(value: bool)
      requires Valid()
      modifies buckets
      ensures Bits() == Painted(old(Bits()), 0, count, value)
      ensures forall i :: 0 <= i < count ==> Bits()[i] == value
    {
      hide BitAt;
      var nBuckets := count / 8;
      var leftover := count - nBuckets * 8;
      if 0 < leftover {
        var _ := InternalMap(buckets, nBuckets * 8, leftover, if value then OneBits else ZeroBits, 0);
      }
      ghost var b := buckets[..];
      forall i | 0 <= i < nBuckets {
        buckets[i] := if value then 0xFF else 0;
      }
      AllSet(b, buckets[..], nBuckets, value);
    }

    /** `__CFBitVectorGrow`: more buckets; what the new ones hold is not defined. */
    method Grow(numNewValues: nat)
      requires Valid()
      modifies this`buckets
      ensures Valid() && Bits() == old(Bits()) && count + numNewValues <= 8 * buckets.Length && fresh(buckets)
    {
      hide BitOf;
      var capacity := RoundUpCapacity(count + numNewValues);
      var bigger := new bv8[capacity / 8 + 1];
      var keep := if buckets.Length < bigger.Length then buckets.Length else bigger.Length;
      forall i | 0 <= i < keep {
        bigger[i] := buckets[i];
      }
      assert forall i :: 0 <= i < count ==> i / 8 < keep && bigger[..][i / 8] == buckets[..][i / 8];
      buckets := bigger;
    }

    /** `CFBitVectorSetCount`: growing appends zero bits, shrinking drops bits. */
    method SetCount(newCount: nat)
      requires Valid()
      modifies this, buckets
      ensures Valid() && count == newCount && (buckets == old(buckets) || fresh(buckets))
      ensures Bits() == if newCount <= old(count) then old(Bits())[..newCount]
                        else old(Bits()) + seq(newCount - old(count), _ => false)
    {
      hide BitAt;
      var cnt := count;
      ghost var s := Bits();
      if cnt < newCount {
        Grow(newCount - cnt);
        assert forall i :: 0 <= i < cnt ==> s[i] == BitAt(buckets[..], i);
        var _ := InternalMap(buckets, cnt, newCount - cnt, ZeroBits, 0);
      }
      count := newCount;
    }
  }

  ghost function Painted(s: seq<bool>, loc: nat, len: nat, value: bool): seq<bool>
    requires loc + len <= |s|
  {
    s[..loc] + seq(len, _ => value) + s[loc + len..]
  }

  ghost function Flipped(s: seq<bool>, loc: nat, len: nat): seq<bool>
    requires loc + len <= |s|
  {
    s[..loc] + seq(len, i requires 0 <= i < len => !s[loc + i]) + s[loc + len..]
  }

  /** Flipping twice restores the bits. */
  lemma FlipTwice(s: seq<bool>, loc: nat, len: nat)
    requires loc + len <= |s|
    ensures |Flipped(s, loc, len)| == |s| && Flipped(Flipped(s, loc, len), loc, len) == s
  {
  }

  lemma SameBits(b: seq<bv8>, b': seq<bv8>)
    requires |b| == |b'| && forall i :: 0 <= i < 8 * |b| ==> BitAt(b', i) == BitAt(b, i)
    ensures b' == b
  {
    hide BitOf;
    forall k | 0 <= k < |b| ensures b'[k] == b[k] {
      forall j | 0 <= j < 8 ensures BitOf(b'[k], j) == BitOf(b[k], j) {
        assert (8 * k + j) / 8 == k && (8 * k + j) % 8 == j;
        assert BitAt(b', 8 * k + j) == BitAt(b, 8 * k + j);
      }
      SameBucket(b'[k], b[k]);
    }
  }

  lemma AllSet(b: seq<bv8>, b': seq<bv8>, n: nat, value: bool)
    requires |b| == |b'| && n <= |b|
    requires forall k :: 0 <= k < n ==> b'[k] == if value then 0xFF else 0
    requires forall k :: n <= k < |b| ==> b'[k] == b[k]
    ensures forall i :: 0 <= i < 8 * |b| ==> BitAt(b', i) == if i < 8 * n then value else BitAt(b, i)
  {
    hide BitOf;
    forall i | 0 <= i < 8 * |b| ensures BitAt(b', i) == if i < 8 * n then value else BitAt(b, i) {
      SimpleBits(0, i % 8);
    }
  }
}
