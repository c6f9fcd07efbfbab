/** Reading back what was written. */
module PlistRoundTrip {
  import opened BigEndian
  import opened Machine
  import opened PlistFormat
  import opened PlistReader
  import opened PlistBuffer
  import opened PlistEncode
  import opened PlistLayout
  import opened PlistFlatten
  import opened PlistWriter

  // ---------- Decoding an encoded object in place

  /** The bytes `enc` stand at `off`, inside the object table. */
  predicate At(d: Doc, off: nat, enc: seq<byte>) {
    && Bounded(d) && 8 <= off
    && off + |enc| <= d.tr.offsetTableOffset
    && d.data[off..off + |enc|] == enc
  }

  lemma AtSplit(d: Doc, off: nat, a: seq<byte>, b: seq<byte>)
    requires At(d, off, a + b)
    ensures At(d, off, a) && At(d, off + |a|, b)
  {
    var s := d.data[off..off + |a + b|];
    assert s[..|a|] == a && s[|a|..] == b;
    assert d.data[off..off + |a|] == s[..|a|];
    assert d.data[off + |a|..off + |a| + |b|] == s[|a|..];
  }

  lemma AtFirst(d: Doc, off: nat, b: byte, rest: seq<byte>)
    requires At(d, off, [b] + rest)
    ensures d.data[off] == b && At(d, off + 1, rest)
  {
    AtSplit(d, off, [b], rest);
    assert d.data[off..off + 1][0] == b;
  }

  lemma Pow2Values()
    ensures Pow2(0) == 1 && Pow2(1) == 2 && Pow2(2) == 4 && Pow2(3) == 8 && Pow2(4) == 16
  {
    assert Pow2(4) == 2 * Pow2(3) && Pow2(3) == 2 * Pow2(2);
  }

  /** The marker's high half selects the decoder. */
  lemma Dispatch(d: Doc, off: nat)
    requires Bounded(d) && 8 <= off < d.tr.offsetTableOffset
    ensures
      var m := d.data[off] / 16;
      && (m == 0x1 ==> Decode(d, off) == DecodeInt(d, off))
      && (m == 0x2 ==> Decode(d, off) == DecodeReal(d, off))
      && (m == 0x3 ==> Decode(d, off) == DecodeDate(d, off))
      && (m == 0x4 ==> Decode(d, off) == DecodeData(d, off))
      && (m == 0x5 ==> Decode(d, off) == DecodeAscii(d, off))
      && (m == 0x6 ==> Decode(d, off) == DecodeUnicode(d, off))
      && (m == 0x8 ==> Decode(d, off) == DecodeUid(d, off))
      && (m == 0xA ==> Decode(d, off) == DecodeRefs(d, off, Array))
      && (m == 0xD ==> Decode(d, off) == DecodeRefs(d, off, Dict))
  {
    hide DecodeInt, DecodeReal, DecodeDate, DecodeData, DecodeAscii, DecodeUnicode, DecodeUid, DecodeRefs;
  }

  lemma StoredInt(d: Doc, p: nat, n: nat, w: nat)
    requires At(d, p, ToBE(n, w)) && n < Pow256(w) && n < TWO64
    ensures SizedInt(d.data, p, w) == n
  {
    hide SizedInt, Pow256, ToBE;
    ReadStored(d.data, p, n, w);
  }

  lemma IntStored(d: Doc, p: nat, n: nat)
    requires n < TWO64 && At(d, p, EncodeInt(n))
    ensures d.data[p] / 16 == 1 && Pow2(d.data[p] % 16) == Width(n)
    ensures Fits(d, p + 1, Width(n)) && SizedInt(d.data, p + 1, Width(n)) == n
  {
    Pow2Values();
    hide SizedInt, Pow2, Pow256, ToBE;
    AtFirst(d, p, EncodeInt(n)[0], ToBE(n, Width(n)));
    StoredInt(d, p + 1, n, Width(n));
  }

  lemma ReadIntOf(d: Doc, p: nat, n: nat)
    requires n < TWO64 && At(d, p, EncodeInt(n))
    ensures ReadInt(d, p) == Some((n, p + |EncodeInt(n)|))
  {
    hide SizedInt, Pow2, Pow256, ToBE;
    IntStored(d, p, n);
  }

  lemma ReadCountOf(d: Doc, off: nat, high: byte, count: nat, rest: seq<byte>)
    requires high <= 0xF0 && high % 16 == 0 && count <= LONG_MAX
    requires At(d, off, EncodeCount(high, count) + rest)
    ensures d.data[off] / 16 == high / 16
    ensures ReadCount(d, off) == Some((count, off + |EncodeCount(high, count)|))
    ensures At(d, off + |EncodeCount(high, count)|, rest)
  {
    hide EncodeInt, ReadInt;
    AtSplit(d, off, EncodeCount(high, count), rest);
    if count < 15 {
      AtFirst(d, off, high + count, []);
    } else {
      AtFirst(d, off, high + 15, EncodeInt(count));
      ReadIntOf(d, off + 1, count);
    }
  }

  /** A scalar as it comes back: of a 128-bit number only the low 64 bits are read. */
  function ReadBackScalar(v: Scalar): (r: Scalar) {
    match v
    case Int(n, true) => Int(n % TWO64, true)
    case _ => v
  }

  lemma SignedBack(n: int)
    requires -TWO63 <= n < TWO63
    ensures Unsigned(n, TWO64) < TWO64 && Signed64(Unsigned(n, TWO64)) == n
  {
  }

  lemma NumberBack(d: Doc, off: nat, n: int)
    requires -TWO63 <= n < TWO63 && At(d, off, EncodeNumber(n, false))
    ensures Decode(d, off) == Some(Atom(Int(n, false)))
  {
    SignedBack(n);
    var u := Unsigned(n, TWO64);
    IntStored(d, off, u);
    hide Decode, SizedInt, Pow2, Pow256, EncodeInt, Unsigned, Signed64;
    Dispatch(d, off);
  }

  /** Of sixteen bytes read as one number, 64-bit arithmetic keeps the last eight. */
  lemma LowHalf(data: seq<byte>, p: nat, hi: seq<byte>, lo: seq<byte>)
    requires |hi| == 8 && |lo| == 8 && p + 16 <= |data| && data[p..p + 16] == hi + lo
    ensures SizedInt(data, p, 16) == FromBE(lo)
  {
    Pow256Values();
    FromBEConcat(hi, lo);
    FromBEBound(lo);
    hide FromBE, Pow256;
    ModDrop(FromBE(hi), FromBE(lo));
  }

  lemma ModDrop(q: int, r: int)
    ensures (q * TWO64 + r) % TWO64 == r % TWO64
  {
  }

  lemma ModNested(n: int)
    ensures n % TWO128 % TWO64 == n % TWO64
  {
    var q := n / TWO128;
    assert n == q * TWO128 + n % TWO128;
    assert n == (q * TWO64) * TWO64 + n % TWO128;
    ModDrop(q * TWO64, n % TWO128);
  }

  /** A 128-bit number is written as two halves; the lower one carries it modulo 2^64. */
  lemma WideHalves(n: int) returns (hi: seq<byte>, lo: seq<byte>)
    ensures EncodeNumber(n, true) == [0x14] + (hi + lo) && |hi| == 8 && |lo| == 8
    ensures FromBE(lo) == n % TWO64
  {
    hide FromBE, ToBE, Pow256;
    var u := Unsigned(n, TWO128);
    hi, lo := ToBE(u / TWO64, 8), ToBE(u % TWO64, 8);
    Pow256Values();
    FromToBE(u % TWO64, 8);
    ModNested(n);
  }

  lemma WideBack(d: Doc, off: nat, n: int)
    requires At(d, off, EncodeNumber(n, true))
    ensures Decode(d, off) == Some(Atom(Int(n % TWO64, true)))
  {
    hide FromBE, ToBE, Pow256, EncodeNumber, Pow2, Decode, SizedInt, Unsigned;
    var hi, lo := WideHalves(n);
    Pow2Values();
    AtFirst(d, off, 0x14, hi + lo);
    LowHalf(d.data, off + 1, hi, lo);
    Dispatch(d, off);
  }

  lemma NarrowBack(chars: seq<u16>)
    requires IsAscii(chars)
    ensures Widen(Narrow(chars)) == chars
  {
  }

  lemma PairOf(chars: seq<u16>, i: nat)
    requires i < |chars|
    ensures Pairs(chars)[2 * i] == chars[i] / 256 && Pairs(chars)[2 * i + 1] == chars[i] % 256
  {
    assert (2 * i) / 2 == i && (2 * i) % 2 == 0 && (2 * i + 1) / 2 == i && (2 * i + 1) % 2 == 1;
  }

  lemma UnitOf(s: seq<byte>, n: nat, i: nat)
    requires |s| == 2 * n && i < n
    ensures Units(s, n)[i] == Unit(s[2 * i], s[2 * i + 1])
  {
  }

  lemma PairsBack(chars: seq<u16>)
    ensures Units(Pairs(chars), |chars|) == chars
  {
    hide Pairs, Units;
    var s := Pairs(chars);
    forall i | 0 <= i < |chars| ensures Units(s, |chars|)[i] == chars[i] {
      PairOf(chars, i);
      UnitOf(s, |chars|, i);
    }
  }

  lemma AsciiBack(d: Doc, off: nat, chars: seq<u16>)
    requires IsAscii(chars) && At(d, off, EncodeCount(0x50, |chars|) + Narrow(chars))
    ensures Decode(d, off) == Some(Atom(Text(chars)))
  {
    hide EncodeCount, Narrow, Widen, ReadCount, IsAscii, Decode;
    ReadCountOf(d, off, 0x50, |chars|, Narrow(chars));
    NarrowBack(chars);
    Dispatch(d, off);
  }

  lemma UnicodeBack(d: Doc, off: nat, chars: seq<u16>)
    requires At(d, off, EncodeCount(0x60, |chars|) + Pairs(chars))
    ensures Decode(d, off) == Some(Atom(Text(chars)))
  {
    hide EncodeCount, Pairs, Units, ReadCount, Decode;
    ReadCountOf(d, off, 0x60, |chars|, Pairs(chars));
    PairsBack(chars);
    Dispatch(d, off);
  }

  lemma TextBack(d: Doc, off: nat, chars: seq<u16>)
    requires At(d, off, EncodeText(chars))
    ensures Decode(d, off) == Some(Atom(Text(chars)))
  {
    hide At, Decode;
    if IsAscii(chars) {
      AsciiBack(d, off, chars);
    } else {
      UnicodeBack(d, off, chars);
    }
  }

  lemma DataBack(d: Doc, off: nat, bytes: seq<byte>)
    requires At(d, off, EncodeCount(0x40, |bytes|) + bytes)
    ensures Decode(d, off) == Some(Atom(Data(bytes)))
  {
    hide EncodeCount, ReadCount, Decode;
    ReadCountOf(d, off, 0x40, |bytes|, bytes);
    Dispatch(d, off);
  }

  /** Reals and dates: a marker and a payload of fixed size. */
  lemma PayloadBack(d: Doc, off: nat, v: Scalar)
    requires (v.Real? || v.Date?) && ProperScalar(v) && At(d, off, EncodeScalar(v))
    ensures Decode(d, off) == Some(Atom(v))
  {
    hide Decode, At, EncodeNumber, EncodeText, EncodeUid, EncodeCount;
    var m := if v.Date? then 0x33 else if |v.payload| == 4 then 0x22 else 0x23;
    assert EncodeScalar(v) == [m] + v.payload;
    PayloadRead(d, off, m, v);
  }

  lemma PayloadRead(d: Doc, off: nat, m: byte, v: Scalar)
    requires (v.Real? || v.Date?) && At(d, off, [m] + v.payload)
    requires if v.Date? then m == 0x33 && |v.payload| == 8
             else (m == 0x22 && |v.payload| == 4) || (m == 0x23 && |v.payload| == 8)
    ensures Decode(d, off) == Some(Atom(v))
  {
    hide Decode;
    AtFirst(d, off, m, v.payload);
    Dispatch(d, off);
  }

  lemma UidBack(d: Doc, off: nat, n: nat)
    requires n < 0x1_0000_0000 && At(d, off, EncodeUid(n))
    ensures Decode(d, off) == Some(Atom(Uid(n)))
  {
    hide Decode, SizedInt, Pow256, ToBE;
    AtFirst(d, off, EncodeUid(n)[0], ToBE(n, Width(n)));
    StoredInt(d, off + 1, n, Width(n));
    Dispatch(d, off);
  }

  lemma BoolBack(d: Doc, off: nat, b: bool)
    requires At(d, off, EncodeScalar(Bool(b)))
    ensures Decode(d, off) == Some(Atom(Bool(b)))
  {
    AtFirst(d, off, EncodeScalar(Bool(b))[0], []);
  }

  /** Every writable scalar is read back from its encoding, wherever that stands. */
  lemma ScalarBack(d: Doc, off: nat, v: Scalar)
    requires WritableScalar(v) && ProperScalar(v) && At(d, off, EncodeScalar(v))
    ensures Decode(d, off) == Some(Atom(ReadBackScalar(v)))
  {
    hide Decode, At, EncodeNumber, EncodeText, EncodeUid, EncodeCount;
    match v
    case Bool(b) => BoolBack(d, off, b);
    case Int(n, wide) => if wide { WideBack(d, off, n); } else { NumberBack(d, off, n); }
    case Real(payload) => PayloadBack(d, off, v);
    case Date(payload) => PayloadBack(d, off, v);
    case Data(bytes) => DataBack(d, off, bytes);
    case Text(chars) => TextBack(d, off, chars);
    case Uid(n) => UidBack(d, off, n);
  }

  // ---------- Containers

  /** An encoded container decodes to its reference list. */
  lemma RefsBack(d: Doc, off: nat, kind: Kind, refs: seq<nat>)
    requires At(d, off, EncodeRefs(kind, refs, d.tr.objectRefSize)) && d.tr.objectRefSize >= 1
    requires !kind.Set? && (kind.Dict? ==> |refs| % 2 == 0)
    requires d.tr.offsetTableOffset < TWO64 / 8
    ensures
      var first := off + |EncodeRefs(kind, refs, d.tr.objectRefSize)| - Span(|refs|, d.tr.objectRefSize);
      && Decode(d, off) == Some(Refs(kind, first, |refs|))
      && At(d, first, RefBytes(refs, d.tr.objectRefSize))
  {
    hide EncodeCount, RefBytes, Decode, Span, At, EncodeRefs, KindMarker, HeaderCount;
    RefsFew(d, off, kind, refs);
    RefsParts(kind, refs, d.tr.objectRefSize);
    HeaderBack(d, off, kind, HeaderCount(kind, refs), |refs|, RefBytes(refs, d.tr.objectRefSize));
  }

  /** The count a container's header holds. */
  function HeaderCount(kind: Kind, refs: seq<nat>): nat {
    if kind.Dict? then |refs| / 2 else |refs|
  }

  lemma HeaderBack(d: Doc, off: nat, kind: Kind, n: nat, count: nat, bytes: seq<byte>)
    requires At(d, off, EncodeCount(KindMarker(kind), n) + bytes) && off < d.tr.offsetTableOffset && !kind.Set?
    requires |bytes| == Span(count, d.tr.objectRefSize) && count == (if kind.Dict? then 2 * n else n)
    requires count < TWO64 / 8
    ensures var first := off + |EncodeCount(KindMarker(kind), n)|;
      Decode(d, off) == Some(Refs(kind, first, count)) && At(d, first, bytes)
  {
    hide EncodeCount, ReadCount, Decode, Span, DecodeRefs, KindMarker;
    MarkerHalf(kind);
    ReadCountOf(d, off, KindMarker(kind), n, bytes);
    RefsDecoded(d, off, kind, n, off + |EncodeCount(KindMarker(kind), n)|, count, bytes);
    Dispatch(d, off);
  }

  lemma RefsParts(kind: Kind, refs: seq<nat>, size: nat)
    requires kind.Dict? ==> |refs| % 2 == 0
    ensures var n := HeaderCount(kind, refs);
      && EncodeRefs(kind, refs, size) == EncodeCount(KindMarker(kind), n) + RefBytes(refs, size)
      && |EncodeRefs(kind, refs, size)| == |EncodeCount(KindMarker(kind), n)| + Span(|refs|, size)
      && |refs| == (if kind.Dict? then 2 * n else n)
  {
    hide EncodeCount, RefBytes, Span;
  }

  lemma MarkerHalf(kind: Kind)
    requires !kind.Set?
    ensures KindMarker(kind) <= 0xF0 && KindMarker(kind) % 16 == 0
    ensures KindMarker(kind) / 16 == if kind.Dict? then 0xD else 0xA
  {
  }

  /** What is in the file bounds the number of references. */
  lemma RefsFew(d: Doc, off: nat, kind: Kind, refs: seq<nat>)
    requires At(d, off, EncodeRefs(kind, refs, d.tr.objectRefSize)) && d.tr.objectRefSize >= 1
    ensures |refs| < d.tr.offsetTableOffset && 8 <= off < d.tr.offsetTableOffset && Bounded(d)
  {
    hide RefBytes, Span;
    SpanMonotone(0, |refs|, d.tr.objectRefSize);
  }

  lemma RefsDecoded(d: Doc, off: nat, kind: Kind, n: nat, p: nat, count: nat, bytes: seq<byte>)
    requires Bounded(d) && off < d.tr.offsetTableOffset && ReadCount(d, off) == Some((n, p)) && At(d, p, bytes)
    requires |bytes| == Span(count, d.tr.objectRefSize) && count == (if kind.Dict? then 2 * n else n)
    requires count < TWO64 / 8
    ensures DecodeRefs(d, off, kind) == Some(Refs(kind, p, count))
  {
    hide ReadCount, Span;
  }

  /** A reference list stored in place leads to the offsets of the numbered objects. */
  lemma ChildBack(d: Doc, first: nat, refs: seq<nat>, i: nat)
    requires Checked(d) && i < |refs| && refs[i] < d.tr.numObjects
    requires At(d, first, RefBytes(refs, d.tr.objectRefSize))
    ensures OffsetOfRefAt(d, first + Span(i, d.tr.objectRefSize)) == OffsetEntry(d, refs[i])
  {
    hide SizedInt, Pow256, RefBytes, OffsetEntry, OffsetOfRefAt, Span, FromBE, ToBE, Checked, At;
    FitsRef(d, refs[i]);
    RefStored(d, first, refs, d.tr.objectRefSize, i);
    RefLeads(d, first + Span(i, d.tr.objectRefSize), refs[i]);
  }

  lemma RefLeads(d: Doc, p: nat, n: nat)
    requires Checked(d) && 8 <= p && p + d.tr.objectRefSize <= d.tr.offsetTableOffset
    requires n < d.tr.numObjects && SizedInt(d.data, p, d.tr.objectRefSize) == n
    ensures OffsetOfRefAt(d, p) == OffsetEntry(d, n)
  {
    hide SizedInt, OffsetEntry;
  }

  lemma RefStored(d: Doc, first: nat, refs: seq<nat>, size: nat, i: nat)
    requires i < |refs| && refs[i] < Pow256(size) && refs[i] < TWO64 && At(d, first, RefBytes(refs, size))
    ensures 8 <= first && first + Span(i, size) + size <= d.tr.offsetTableOffset
    ensures SizedInt(d.data, first + Span(i, size), size) == refs[i]
  {
    hide Pow256, FromBE, ToBE, RefBytes, SizedInt, Span, At;
    RefBytesAt(refs, size, i);
    AtSlice(d, first, RefBytes(refs, size), Span(i, size), size);
    StoredInt(d, first + Span(i, size), refs[i], size);
  }

  lemma AtSlice(d: Doc, off: nat, enc: seq<byte>, from: nat, len: nat)
    requires At(d, off, enc) && from + len <= |enc|
    ensures At(d, off + from, enc[from..from + len])
    ensures 8 <= off && off + from + len <= d.tr.offsetTableOffset <= |d.data|
  {
    SliceOfSlice(d.data, off, |enc|, from, len);
  }

  lemma FitsRef(d: Doc, n: nat)
    requires Checked(d) && n < d.tr.numObjects
    ensures n < Pow256(d.tr.objectRefSize) && n < TWO64
  {
    if d.tr.objectRefSize >= 8 {
      Pow256Values();
      Pow256Grows(8, d.tr.objectRefSize);
    }
  }

  lemma {:induction false} Pow256Grows(j: nat, k: nat)
    requires j <= k
    ensures Pow256(j) <= Pow256(k)
  {
    if j < k {
      Pow256Grows(j, k - 1);
    }
  }

  // ---------- The file as a whole

  const LIMIT := TWO64 / 8  // a longer byte string would hold more references than memory can

  /** Encoded objects whose file stays within the limits of the format and of memory. */
  predicate Sizeable(parts: seq<seq<byte>>) {
    && 1 <= |parts| < 0x1_0000_0000
    && (forall i :: 0 <= i < |parts| ==> parts[i] != [])
    && |Image(parts)| < LIMIT
  }

  function ImageDoc(parts: seq<seq<byte>>, top: nat): Doc {
    Doc(TopImage(parts, top), TopTrailer(parts, top))
  }

  /** The file as its parts. */
  function ImageFile(parts: seq<seq<byte>>, top: nat): File {
    File(0x30, Flat(parts), Starts(parts), [0, 0, 0, 0, 0, 0], Width(8 + |Flat(parts)|), Width(|parts|), top)
  }

  lemma ImageIsFile(parts: seq<seq<byte>>, top: nat)
    ensures Bytes(ImageFile(parts, top)) == TopImage(parts, top)
    ensures TrailerIn(ImageFile(parts, top)) == TopTrailer(parts, top)
    ensures |TopImage(parts, top)| == |Image(parts)| == TopTrailer(parts, top).offsetTableOffset
                                      + Span(|parts|, TopTrailer(parts, top).offsetIntSize) + TRAILER_SIZE
  {
    FlatIsObjectTable(parts);
    hide Flat, RefBytes, Starts, Span, Width, ToBE;
  }

  /** Each part stands at its start. */
  lemma {:induction false} FlatAt(parts: seq<seq<byte>>, i: nat)
    requires i < |parts|
    ensures
      var from := |Flat(parts[..i])|;
      && from + |parts[i]| <= |Flat(parts)|
      && Flat(parts)[from..from + |parts[i]|] == parts[i]
  {
    var init := parts[..|parts| - 1];
    if i < |init| {
      FlatAt(init, i);
      assert init[..i] == parts[..i];
      var from := |Flat(parts[..i])|;
      assert Flat(parts)[from..from + |parts[i]|] == Flat(init)[from..from + |parts[i]|];
    }
  }

  lemma PartAt(parts: seq<seq<byte>>, top: nat, i: nat)
    requires Sizeable(parts) && i < |parts|
    ensures At(ImageDoc(parts, top), StartOf(parts, i), parts[i])
    ensures StartOf(parts, i) < TopTrailer(parts, top).offsetTableOffset
  {
    hide Flat, Image, TopImage, Bytes, Width, Span, RefBytes, Starts;
    ImageIsFile(parts, top);
    BytesShape(ImageFile(parts, top));
    FlatAt(parts, i);
    SliceOfSlice(TopImage(parts, top), 8, |Flat(parts)|, |Flat(parts[..i])|, |parts[i]|);
  }

  lemma ImageBounds(parts: seq<seq<byte>>, top: nat)
    requires Sizeable(parts)
    ensures TopTrailer(parts, top).offsetTableOffset < LIMIT
  {
    hide Image, TopImage, TopTrailer, Span;
    ImageIsFile(parts, top);
  }

  lemma StartFits(parts: seq<seq<byte>>, i: nat)
    requires Sizeable(parts) && i < |parts|
    ensures 8 <= StartOf(parts, i) < 8 + |Flat(parts)| && StartOf(parts, i) < TWO64
    ensures StartOf(parts, i) < Pow256(Width(8 + |Flat(parts)|))
  {
    FlatIsObjectTable(parts);
    PartAt(parts, 0, i);
    ImageBounds(parts, 0);
    hide Flat, Image, TopImage, Span, RefBytes, Starts, StartOf, At, Pow256;
  }

  /** The parts of an image are sound, whichever of its objects is on top. */
  lemma ImageSound(parts: seq<seq<byte>>, top: nat)
    requires Sizeable(parts) && top < |parts|
    ensures SoundFile(ImageFile(parts, top))
  {
    hide Flat, Image, TopImage, Bytes, Span, RefBytes, StartOf, Starts, Pow256, TopTrailer, Width;
    ImageSmall(parts, top);
    forall i | 0 <= i < |parts|
      ensures 8 <= Starts(parts)[i] % TWO64 < 8 + |Flat(parts)| && Starts(parts)[i] < Pow256(Width(8 + |Flat(parts)|))
    {
      StartStored(parts, i);
    }
  }

  lemma StartStored(parts: seq<seq<byte>>, i: nat)
    requires Sizeable(parts) && i < |parts|
    ensures 8 <= Starts(parts)[i] % TWO64 < 8 + |Flat(parts)| && Starts(parts)[i] < Pow256(Width(8 + |Flat(parts)|))
  {
    hide Flat, StartOf, Pow256, Width, Sizeable;
    StartFits(parts, i);
    ghost var x := StartOf(parts, i);
    assert Starts(parts)[i] == x;
    SmallRemainder(x);
  }

  lemma SmallRemainder(x: nat)
    requires x < TWO64
    ensures x % TWO64 == x
  {
  }

  lemma ImageSmall(parts: seq<seq<byte>>, top: nat)
    requires Sizeable(parts)
    ensures
      var f := ImageFile(parts, top);
      && Flat(parts) != [] && 8 + |Flat(parts)| <= LONG_MAX && |Bytes(f)| < TWO64
      && f.intSize >= 1 && f.refSize >= 1 && |parts| < Pow256(f.refSize) && 8 + |Flat(parts)| < Pow256(f.intSize)
  {
    ImageIsFile(parts, top);
    ImageBounds(parts, top);
    StartFits(parts, 0);
    FlatIsObjectTable(parts);
    hide Flat, Image, TopImage, Bytes, Span, RefBytes, StartOf, Starts, Pow256;
  }

  /** The offset table leads to the starts of the objects. */
  lemma EntryBack(parts: seq<seq<byte>>, top: nat, i: nat)
    requires Sizeable(parts) && top < |parts| && i < |parts| && Laid(ImageDoc(parts, top))
    ensures OffsetEntry(ImageDoc(parts, top), i) == StartOf(parts, i)
  {
    hide Image, TopImage, Bytes, Flat, Laid, StartOf, TopTrailer, Width, Span, OffsetEntry, SoundFile;
    ImageSound(parts, top);
    ImageIsFile(parts, top);
    StartFits(parts, i);
    BytesEntry(ImageFile(parts, top), i);
  }

  /** Images pass the validator, with the chosen object on top. */
  lemma ImageWellFormed(parts: seq<seq<byte>>, top: nat)
    requires Sizeable(parts) && top < |parts|
    ensures Checked(ImageDoc(parts, top)) && WellFormed(TopImage(parts, top))
    ensures TopOf(TopImage(parts, top)).tr == TopTrailer(parts, top)
    ensures TopOf(TopImage(parts, top)).offset == StartOf(parts, top)
  {
    hide Image, TopImage, Bytes, Flat, StartOf, TopTrailer, Width, SoundFile, Checked, WellFormed, TopOf;
    ImageSound(parts, top);
    ImageIsFile(parts, top);
    StartFits(parts, top);
    SoundAccepted(ImageFile(parts, top));
  }

  // ---------- Trees

  /** The tree as it comes back. */
  function ReadBack(t: Plist): (r: Plist)
    decreases t
  {
    match t
    case Leaf(v) => Leaf(ReadBackScalar(v))
    case Node(kind, children) => Node(kind, seq(|children|, i requires 0 <= i < |children| => ReadBack(children[i])))
  }

  /** Dictionary keys are scalars throughout. */
  ghost predicate KeysScalar(t: Plist)
    decreases t
  {
    match t
    case Leaf(_) => true
    case Node(kind, children) =>
      && (kind.Dict? ==> forall i :: 0 <= i < |children| / 2 ==> children[i].Leaf?)
      && forall i :: 0 <= i < |children| ==> KeysScalar(children[i])
  }

  /** No 128-bit number loses anything when cut to 64 unsigned bits. */
  ghost predicate WideFits(t: Plist)
    decreases t
  {
    match t
    case Leaf(Int(n, true)) => 0 <= n < TWO64
    case Leaf(_) => true
    case Node(_, children) => forall i :: 0 <= i < |children| ==> WideFits(children[i])
  }

  /** A tree comes back unchanged exactly when its 128-bit numbers fit. */
  lemma {:induction false} ReadBackExact(t: Plist)
    ensures ReadBack(t) == t <==> WideFits(t)
    decreases t
  {
    if t.Node? {
      forall i | 0 <= i < |t.children| ensures ReadBack(t.children[i]) == t.children[i] <==> WideFits(t.children[i]) {
        ReadBackExact(t.children[i]);
      }
      if ReadBack(t) == t {
        forall i | 0 <= i < |t.children| ensures ReadBack(t.children[i]) == t.children[i] {
          assert ReadBack(t).children[i] == ReadBack(t.children[i]);
        }
      }
    }
  }

  /** A file made from a flattened graph. */
  ghost predicate Written(g: Graph, list: seq<Ref>, table: map<Ref, nat>, parts: seq<seq<byte>>) {
    && Numbered(g, list, table) && ClosedFrom(g, list, table, 0) && WritableFrom(g, list, 0)
    && parts == Parts(g, list, table, Width(|list|))
    && Sizeable(parts)
  }

  lemma WrittenNode(g: Graph, list: seq<Ref>, table: map<Ref, nat>, parts: seq<seq<byte>>, top: nat, i: nat)
    requires Written(g, list, table, parts) && top < |parts| && Checked(ImageDoc(parts, top))
    requires i < |list| && g[list[i]].Holder?
    requires g[list[i]].kind.Dict? ==> |g[list[i]].refs| % 2 == 0
    ensures
      var o, d := g[list[i]], ImageDoc(parts, top);
      && Decode(d, StartOf(parts, i)).Some?
      && var s := Decode(d, StartOf(parts, i)).value;
      && s.Refs? && s.kind == o.kind && s.count == |o.refs|
      && At(d, s.first, RefBytes(NumbersOf(o.refs, table), d.tr.objectRefSize))
  {
    hide Decode, StartOf, Image, TopImage, RefBytes, Checked, At, EncodeRefs, Width;
    ImageBounds(parts, top);
    PartAt(parts, top, i);
    RefsBack(ImageDoc(parts, top), StartOf(parts, i), g[list[i]].kind, NumbersOf(g[list[i]].refs, table));
  }

  /** Following the references of a written container leads to the starts of its children. */
  lemma WrittenChild(g: Graph, list: seq<Ref>, table: map<Ref, nat>, parts: seq<seq<byte>>, top: nat, i: nat, k: nat)
    returns (j: nat)
    requires Written(g, list, table, parts) && top < |parts| && Checked(ImageDoc(parts, top))
    requires i < |list| && g[list[i]].Holder? && k < |g[list[i]].refs|
    requires g[list[i]].kind.Dict? ==> |g[list[i]].refs| % 2 == 0
    ensures
      var o, d := g[list[i]], ImageDoc(parts, top);
      && Decode(d, StartOf(parts, i)).Some?
      && var s := Decode(d, StartOf(parts, i)).value;
      && s.Refs? && s.kind == o.kind && s.count == |o.refs|
      && j < |list| && list[j] in g && o.refs[k] in g && g[list[j]] == g[o.refs[k]]
      && ChildOffset(d, s, k) == StartOf(parts, j)
  {
    hide Decode, OffsetOfRefAt, OffsetEntry, StartOf, Image, TopImage, RefBytes, Checked, At, Width, Parts, ClosedFrom, Numbered,
      NumbersOf, Sizeable, Bounded;
    WrittenNode(g, list, table, parts, top, i);
    j := NumberedChild(g, list, table, i, k);
    CheckedLaid(ImageDoc(parts, top));
    var first := Decode(ImageDoc(parts, top), StartOf(parts, i)).value.first;
    ChildBack(ImageDoc(parts, top), first, NumbersOf(g[list[i]].refs, table), k);
    EntryBack(parts, top, j);
  }

  lemma CheckedLaid(d: Doc)
    requires Checked(d)
    ensures Laid(d) && Bounded(d)
  {
  }

  lemma NumberedChild(g: Graph, list: seq<Ref>, table: map<Ref, nat>, i: nat, k: nat) returns (j: nat)
    requires Numbered(g, list, table) && ClosedFrom(g, list, table, 0) && WritableFrom(g, list, 0)
    requires i < |list| && g[list[i]].Holder? && k < |g[list[i]].refs|
    ensures j < |list| && g[list[i]].refs[k] in g && list[j] in g && g[list[j]] == g[g[list[i]].refs[k]]
    ensures NumbersOf(g[list[i]].refs, table)[k] == j
  {
    assert ChildrenNumbered(g, list[i], table);
    j := table[g[list[i]].refs[k]];
  }

  lemma WrittenLeaf(g: Graph, list: seq<Ref>, table: map<Ref, nat>, parts: seq<seq<byte>>, top: nat, i: nat)
    requires Written(g, list, table, parts) && top < |parts| && Checked(ImageDoc(parts, top))
    requires i < |list| && g[list[i]].Plain? && ProperScalar(g[list[i]].scalar)
    ensures Decode(ImageDoc(parts, top), StartOf(parts, i)) == Some(Atom(ReadBackScalar(g[list[i]].scalar)))
  {
    hide Decode, StartOf, Image, TopImage, TopTrailer, Checked, At, EncodeScalar, Width, ProperScalar, ReadBackScalar;
    PartAt(parts, top, i);
    ScalarBack(ImageDoc(parts, top), StartOf(parts, i), g[list[i]].scalar);
  }

  lemma LeafDenotes(d: Doc, off: nat, v: Scalar)
    requires Checked(d) && Decode(d, off) == Some(Atom(ReadBackScalar(v)))
    ensures Denotes(d, off, ReadBack(Leaf(v)))
  {
    hide Checked, Decode, ReadBackScalar;
  }

  /** A container denotes what its references denote. */
  lemma NodeDenotes(d: Doc, off: nat, t: Plist)
    requires Checked(d) && t.Node? && KeysScalar(t) && Decode(d, off).Some? && Decode(d, off).value.Refs?
    requires var s := Decode(d, off).value;
      && s.kind == t.kind && s.count == |t.children|
      && forall k :: 0 <= k < s.count ==> Denotes(d, ChildOffset(d, s, k), ReadBack(t.children[k]))
    ensures Denotes(d, off, ReadBack(t))
  {
    hide Checked, Decode, ChildOffset, ReadBackScalar;
  }

  /** What a listed object unfolds to is, read back, what its place in the file denotes. */
  lemma {:induction false} TreeBack(g: Graph, list: seq<Ref>, table: map<Ref, nat>,
                                    parts: seq<seq<byte>>, top: nat, i: nat, t: Plist)
    requires Written(g, list, table, parts) && top < |parts| && Checked(ImageDoc(parts, top))
    requires i < |list| && Unfolds(g, list[i], t) && KeysScalar(t)
    ensures Denotes(ImageDoc(parts, top), StartOf(parts, i), ReadBack(t))
    decreases t
  {
    var d, off := ImageDoc(parts, top), StartOf(parts, i);
    hide Checked, Decode, ChildOffset, Written, StartOf, ImageDoc, ReadBack, ReadBackScalar, Denotes;
    if t.Leaf? {
      WrittenLeaf(g, list, table, parts, top, i);
      LeafDenotes(d, off, t.scalar);
    } else {
      WrittenNode(g, list, table, parts, top, i);
      var s := Decode(d, off).value;
      forall k | 0 <= k < |t.children|
        ensures Denotes(d, ChildOffset(d, s, k), ReadBack(t.children[k]))
      {
        var j := WrittenChild(g, list, table, parts, top, i, k);
        assert Unfolds(g, list[j], t.children[k]);
        TreeBack(g, list, table, parts, top, j, t.children[k]);
      }
      NodeDenotes(d, off, t);
    }
  }

  /** A container used as a key anywhere below leaves the object without a meaning. */
  lemma {:induction false} BadKeyBack(g: Graph, list: seq<Ref>, table: map<Ref, nat>,
                                      parts: seq<seq<byte>>, top: nat, i: nat, t: Plist)
    requires Written(g, list, table, parts) && top < |parts| && Checked(ImageDoc(parts, top))
    requires i < |list| && Unfolds(g, list[i], t) && !KeysScalar(t)
    ensures Meaning(ImageDoc(parts, top), StartOf(parts, i)) == None
    decreases t
  {
    var d, off := ImageDoc(parts, top), StartOf(parts, i);
    assert Bounded(d);
    hide Checked, Decode, ChildOffset, Written, StartOf, ImageDoc, ReadBackScalar, Meaning, Denotes;
    if k :| 0 <= k < |t.children| && !KeysScalar(t.children[k]) {
      var j := WrittenChild(g, list, table, parts, top, i, k);
      assert Unfolds(g, list[j], t.children[k]);
      BadKeyBack(g, list, table, parts, top, j, t.children[k]);
      BadChild(d, off, Decode(d, off).value, k);
    } else {
      var k :| 0 <= k < |t.children| / 2 && !t.children[k].Leaf?;
      BadKeyHere(g, list, table, parts, top, i, t, k);
    }
  }

  lemma BadKeyHere(g: Graph, list: seq<Ref>, table: map<Ref, nat>, parts: seq<seq<byte>>, top: nat, i: nat, t: Plist, k: nat)
    requires Written(g, list, table, parts) && top < |parts| && Checked(ImageDoc(parts, top))
    requires i < |list| && Unfolds(g, list[i], t) && t.Node? && t.kind.Dict? && k < |t.children| / 2
    requires !t.children[k].Leaf? && KeysScalar(t.children[k])
    ensures Meaning(ImageDoc(parts, top), StartOf(parts, i)) == None
  {
    var d, off := ImageDoc(parts, top), StartOf(parts, i);
    assert Bounded(d) && |parts| == |list|;
    hide Checked, Decode, ChildOffset, Written, StartOf, ImageDoc, ReadBackScalar, Meaning, Denotes, KeysScalar;
    var j := WrittenChild(g, list, table, parts, top, i, k);
    assert Unfolds(g, list[j], t.children[k]);
    TreeBack(g, list, table, parts, top, j, t.children[k]);
    MeaningIs(d, StartOf(parts, j), ReadBack(t.children[k]));
    BadChild(d, off, Decode(d, off).value, k);
  }

  /**
    The round trip: parsing the file written for a graph gives the tree the graph unfolds to,
    with 128-bit numbers cut to their low 64 bits, and fails exactly when some dictionary has
    a container for a key.
   */
  lemma RoundTrip(g: Graph, root: Ref, list: seq<Ref>, table: map<Ref, nat>, t: Plist)
    requires Unfolds(g, root, t) && Flattened(g, root, list, table) && WritableFrom(g, list, 0)
    requires Sizeable(Parts(g, list, table, Width(|list|)))
    ensures ParsedValue(Image(Parts(g, list, table, Width(|list|)))) ==
            if KeysScalar(t) then Some(ReadBack(t)) else None
  {
    hide Parts, Sizeable, ParsedValue, TopImage;
    AnyOnTop(g, list, table, 0, t);
  }

  /** The same for every object of the list, taken as the top object: it is what parsing gives. */
  lemma AnyOnTop(g: Graph, list: seq<Ref>, table: map<Ref, nat>, top: nat, t: Plist)
    requires Numbered(g, list, table) && ClosedFrom(g, list, table, 0) && WritableFrom(g, list, 0)
    requires Sizeable(Parts(g, list, table, Width(|list|))) && top < |list| && Unfolds(g, list[top], t)
    ensures ParsedValue(TopImage(Parts(g, list, table, Width(|list|)), top)) ==
            if KeysScalar(t) then Some(ReadBack(t)) else None
  {
    var parts := Parts(g, list, table, Width(|list|));
    hide TopImage, StartOf, TopTrailer, ReadBack, KeysScalar, Meaning, Denotes, Sizeable;
    ImageWellFormed(parts, top);
    if KeysScalar(t) {
      TreeBack(g, list, table, parts, top, top, t);
      MeaningIs(ImageDoc(parts, top), StartOf(parts, top), ReadBack(t));
    } else {
      BadKeyBack(g, list, table, parts, top, top, t);
    }
  }

  /** Parsing an image with any of its objects on top. */
  method ParseAnyOnTop(base: nat, g: Graph, list: seq<Ref>, table: map<Ref, nat>, top: nat, ghost t: Plist)
    returns (offset: Option<TopLevel>, r: Option<Plist>)
    requires Numbered(g, list, table) && ClosedFrom(g, list, table, 0) && WritableFrom(g, list, 0)
    requires Sizeable(Parts(g, list, table, Width(|list|))) && top < |list| && Unfolds(g, list[top], t)
    requires base + |Image(Parts(g, list, table, Width(|list|)))| < TWO64
    ensures offset.Some? && offset.value.offset == StartOf(Parts(g, list, table, Width(|list|)), top)
    ensures r == if KeysScalar(t) then Some(ReadBack(t)) else None
  {
    var parts := Parts(g, list, table, Width(|list|));
    hide TopImage, Image, StartOf, TopTrailer, ReadBack, KeysScalar, Sizeable, ParsedValue, WellFormed, TopOf;
    ImageIsFile(parts, top);
    ImageWellFormed(parts, top);
    AnyOnTop(g, list, table, top, t);
    offset := GetTopLevelInfo(base, TopImage(parts, top));
    r := TryParse(base, TopImage(parts, top));
  }

  /**
    Writing to a data object and parsing the result, in one run. A property list of fewer than
    2^32 nodes that fits in memory when nothing is shared comes back as the round trip says.
   */
  method WriteThenParse(g: Graph, root: Ref, same: (Ref, Ref) -> bool, base: nat, ghost t: Plist)
    returns (length: nat, r: Option<Plist>)
    requires Unfolds(g, root, t) && SoundEquality(g, same)
    requires forall x :: x in g ==> Countable(g[x])
    ensures length > 0 <==> Writable(t)
    ensures length <= 40 + Bulk(t)
    ensures !Writable(t) ==> r == None
    ensures Writable(t) && Size(t) < 0x1_0000_0000 && 40 + Bulk(t) < LIMIT && base + 40 + Bulk(t) < TWO64 ==>
              r == if KeysScalar(t) then Some(ReadBack(t)) else None
  {
    hide Unfolds, KeysScalar, ReadBack, Flattened, SoundEquality, Writable, ParsedValue, Image, Width, WritableFrom,
      WriteBuffer.Valid, Countable, Sizeable, Bulk, Size;
    var buf := new WriteBuffer(true);
    ghost var list, table;
    length, list, table := Write(g, root, same, buf, t);
    r := None;
    if length > 0 && base + length < TWO64 {
      r := TryParse(base, buf.stream);
      if Size(t) < 0x1_0000_0000 && 40 + Bulk(t) < LIMIT {
        PartsSizeable(g, root, list, table);
        RoundTrip(g, root, list, table, t);
      }
    }
  }

  /** A dictionary with an empty array for a key is written, and parsing the file fails. */
  method ContainerKeyLost(same: (Ref, Ref) -> bool) returns (length: nat, r: Option<Plist>)
    requires forall a, b :: same(a, b) ==> a == b
    ensures length > 0 && r == None
  {
    var g: Graph := map[0 := Holder(Dict, [1, 2]), 1 := Holder(Array, []), 2 := Plain(Bool(true))];
    ghost var key, value := Node(Array, []), Leaf(Bool(true));
    ghost var t := Node(Dict, [key, value]);
    assert Unfolds(g, 1, key) && Unfolds(g, 2, value);
    assert Writable(key) && Writable(value) && t.children[0] == key && t.children[1] == value;
    assert Unfolds(g, 0, t) && Writable(t) && !KeysScalar(t);
    TwoChildren(key, value);
    length, r := WriteThenParse(g, 0, same, 0, t);
  }

  lemma TwoChildren(a: Plist, b: Plist)
    ensures SizeAll([a, b]) == Size(a) + Size(b) && BulkAll([a, b]) == Bulk(a) + Bulk(b)
  {
    assert [a, b][..1] == [a] && [a][..0] == [];
    assert SizeAll([a]) == Size(a) && BulkAll([a]) == Bulk(a);
  }

  /** Minus one, held as a 128-bit integer, is read back as 2^64 - 1. */
  method WideNumberChanged(same: (Ref, Ref) -> bool) returns (r: Option<Plist>)
    requires forall a, b :: same(a, b) ==> a == b
    ensures r == Some(Leaf(Int(TWO64 - 1, true))) && r != Some(Leaf(Int(-1, true)))
  {
    var g: Graph := map[0 := Plain(Int(-1, true))];
    ghost var t := Leaf(Int(-1, true));
    assert Unfolds(g, 0, t) && Writable(t) && KeysScalar(t);
    var length;
    length, r := WriteThenParse(g, 0, same, 0, t);
  }

  lemma PartsSizeable(g: Graph, root: Ref, list: seq<Ref>, table: map<Ref, nat>)
    requires Flattened(g, root, list, table) && WritableFrom(g, list, 0) && |list| < 0x1_0000_0000
    requires |Image(Parts(g, list, table, Width(|list|)))| < LIMIT
    ensures Sizeable(Parts(g, list, table, Width(|list|)))
  {
    hide ToBE, RefBytes, Narrow, Pairs, Image, Width;
  }
}
