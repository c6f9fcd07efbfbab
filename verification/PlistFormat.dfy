/**
  The binary property list format: property list values, the trailer, and the decoding of a
  single object at a byte offset. Every read is a sequence index, so Dafny checks that each
  one lies inside the data for arbitrary input.
 */
module PlistFormat {
  import opened BigEndian
  import opened Machine

  /**
    Values without children. Reals and dates carry their stored bytes. `wide` marks a number
    held as a 128-bit integer. `Foreign` stands for any object of a type the format lacks.
   */
  datatype Scalar =
    | Null
    | Bool(b: bool)
    | Int(value: int, wide: bool)
    | Real(payload: seq<byte>)
    | Date(payload: seq<byte>)
    | Data(bytes: seq<byte>)
    | Text(chars: seq<u16>)
    | Uid(uid: nat)
    | Foreign

  datatype Kind = Array | Set | Dict

  /**
    A finite property list. The children of a `Dict` are its keys followed by its values in
    the same order, which is how the file stores them and how the reader hands them on.
   */
  datatype Plist = Leaf(scalar: Scalar) | Node(kind: Kind, children: seq<Plist>)

  /** The number of nodes of a property list. */
  function Size(t: Plist): (n: nat)
    ensures n >= 1
    decreases t, 1
  {
    match t
    case Leaf(_) => 1
    case Node(_, children) => 1 + SizeAll(children)
  }

  function SizeAll(ts: seq<Plist>): nat
    decreases ts, 0
  {
    if ts == [] then 0 else SizeAll(ts[..|ts| - 1]) + Size(ts[|ts| - 1])
  }

  datatype Trailer = Trailer(
    offsetIntSize: byte, objectRefSize: byte,
    numObjects: nat, topObject: nat, offsetTableOffset: nat)

  /** A byte string together with its trailer. */
  datatype Doc = Doc(data: seq<byte>, tr: Trailer)

  const HEADER: seq<byte> := [0x62, 0x70, 0x6C, 0x69, 0x73, 0x74, 0x30]  // "bplist0"
  const TRAILER_SIZE := 32
  const MAX_OFFSET := TWO64 - 1

  function TrailerAt(data: seq<byte>): (tr: Trailer)
    requires TRAILER_SIZE <= |data|
    ensures tr.numObjects < TWO64 && tr.topObject < TWO64 && tr.offsetTableOffset < TWO64
  {
    var p := |data| - TRAILER_SIZE;
    Trailer(data[p + 6], data[p + 7],
            SizedInt(data, p + 8, 8), SizedInt(data, p + 16, 8), SizedInt(data, p + 24, 8))
  }

  // ---------- Validation of the trailer and the offset table

  /** The layout facts the validator establishes, in unbounded arithmetic. */
  predicate Laid(d: Doc) {
    var tr := d.tr;
    && 1 <= tr.offsetIntSize && 1 <= tr.objectRefSize
    && 1 <= tr.numObjects && 9 <= tr.offsetTableOffset <= |d.data|
    && |d.data| == tr.offsetTableOffset + Span(tr.numObjects, tr.offsetIntSize) + TRAILER_SIZE
  }

  lemma EntryInside(d: Doc, i: nat)
    requires Laid(d) && i < d.tr.numObjects
    ensures d.tr.offsetTableOffset + Span(i, d.tr.offsetIntSize) + d.tr.offsetIntSize <= |d.data| - TRAILER_SIZE
  {
    SpanMonotone(i + 1, d.tr.numObjects, d.tr.offsetIntSize);
  }

  /** Entry `i` of the offset table. */
  function OffsetEntry(d: Doc, i: nat): (off: nat)
    requires Laid(d) && i < d.tr.numObjects
    ensures off < TWO64
  {
    EntryInside(d, i);
    SizedInt(d.data, d.tr.offsetTableOffset + Span(i, d.tr.offsetIntSize), d.tr.offsetIntSize)
  }

  /** The size checks: everything but the entries of the offset table. */
  predicate Sized(d: Doc) {
    var tr := d.tr;
    && Laid(d)
    && |d.data| < TWO64
    && tr.numObjects <= LONG_MAX && tr.offsetTableOffset <= LONG_MAX
    && tr.topObject < tr.numObjects
    && (tr.objectRefSize < 8 ==> tr.numObjects < Pow256(tr.objectRefSize))
    && (tr.offsetIntSize < 8 ==> tr.offsetTableOffset < Pow256(tr.offsetIntSize))
  }

  /** A document the reader may trust. */
  predicate Checked(d: Doc) {
    && Sized(d)
    && forall i :: 0 <= i < d.tr.numObjects ==> OffsetEntry(d, i) < d.tr.offsetTableOffset
  }

  /** Well-formedness of a byte string as a whole. */
  predicate WellFormed(data: seq<byte>) {
    && TRAILER_SIZE + 9 <= |data|
    && data[..7] == HEADER
    && var d := Doc(data, TrailerAt(data));
    && Checked(d)
    && 8 <= OffsetEntry(d, d.tr.topObject)
  }

  /** Unsigned 64-bit addition with the overflow flag the source computes. */
  function CheckedAdd(x: nat, y: nat): (r: (nat, bool))
    requires x < TWO64 && y < TWO64
    ensures r.0 == (if r.1 then x + y - TWO64 else x + y) && (r.1 <==> x + y >= TWO64)
  {
    ((x + y) % TWO64, TWO64 - 1 - y < x)
  }

  lemma DivBound(m: nat, x: nat, y: nat)
    requires x > 0
    ensures m / x < y <==> x * y > m
  {
    if m / x < y {
      assert m / x + 1 <= y;
      assert x * (m / x + 1) <= x * y;
      assert m < x * (m / x) + x;
    } else {
      assert x * y <= x * (m / x);
    }
  }

  /** Unsigned 64-bit multiplication with the overflow flag the source computes. */
  function CheckedMul(x: nat, y: nat): (r: (nat, bool))
    requires x < TWO64 && y < TWO64
    ensures r.0 < TWO64 && (r.1 <==> x * y >= TWO64) && (!r.1 ==> r.0 == x * y)
  {
    if x == 0 then (0, false)
    else DivBound(TWO64 - 1, x, y); ((x * y) % TWO64, (TWO64 - 1) / x < y)
  }

  /** The size checks of the validator, in 64-bit arithmetic, for data at address `base`. */
  method CheckSizes(base: nat, data: seq<byte>, tr: Trailer) returns (ok: bool)
    requires base + |data| < TWO64 && TRAILER_SIZE + 9 <= |data|
    requires tr.numObjects < TWO64 && tr.topObject < TWO64 && tr.offsetTableOffset < TWO64
    ensures ok <==> Sized(Doc(data, tr))
  {
    if LONG_MAX < tr.numObjects { return false; }
    if LONG_MAX < tr.offsetTableOffset { return false; }
    if tr.numObjects < 1 { return false; }
    if tr.numObjects <= tr.topObject { return false; }
    if tr.offsetTableOffset < 9 { return false; }
    if |data| - TRAILER_SIZE <= tr.offsetTableOffset {
      SpanMonotone(1, tr.numObjects, tr.offsetIntSize);
      return false;
    }
    if tr.offsetIntSize < 1 { return false; }
    if tr.objectRefSize < 1 { return false; }

    var (offsetTableSize, err0) := CheckedMul(tr.numObjects, tr.offsetIntSize);
    SpanIsProduct(tr.numObjects, tr.offsetIntSize);
    if err0 { return false; }
    if offsetTableSize < 1 { return false; }
    var objectDataSize := tr.offsetTableOffset - 8;
    var (sum1, err1) := CheckedAdd(8, objectDataSize);
    var (sum2, err2) := CheckedAdd(sum1, offsetTableSize);
    var (sum3, err3) := CheckedAdd(sum2, TRAILER_SIZE);
    if err1 || err2 || err3 { return false; }
    if |data| != sum3 { return false; }
    if tr.objectRefSize < 8 && Pow256(tr.objectRefSize) <= tr.numObjects { return false; }
    if tr.offsetIntSize < 8 && Pow256(tr.offsetIntSize) <= tr.offsetTableOffset { return false; }

    var (_, err4) := CheckedAdd(base, 8);
    if err4 { return false; }
    var (offsetsFirstByte, err5) := CheckedAdd(base, tr.offsetTableOffset);
    if err5 { return false; }
    var (_, err6) := CheckedAdd(offsetsFirstByte, offsetTableSize - 1);
    return !err6;
  }

  /** The validator's loop over the offset table. */
  method CheckEntries(d: Doc) returns (ok: bool)
    requires Laid(d)
    ensures ok <==> forall i :: 0 <= i < d.tr.numObjects ==> OffsetEntry(d, i) < d.tr.offsetTableOffset
  {
    var maxOffset := d.tr.offsetTableOffset - 1;
    var idx, bytesptr := 0, d.tr.offsetTableOffset;
    while idx < d.tr.numObjects
      invariant 0 <= idx <= d.tr.numObjects
      invariant bytesptr == d.tr.offsetTableOffset + Span(idx, d.tr.offsetIntSize)
      invariant forall i :: 0 <= i < idx ==> OffsetEntry(d, i) < d.tr.offsetTableOffset
    {
      EntryInside(d, idx);
      var off := GetSizedInt(d.data, bytesptr, d.tr.offsetIntSize);
      assert off == OffsetEntry(d, idx);
      if maxOffset < off { return false; }
      bytesptr := bytesptr + d.tr.offsetIntSize;
      idx := idx + 1;
    }
    ok := true;
  }

  method ReadEntry(d: Doc, i: nat) returns (off: nat)
    requires Laid(d) && i < d.tr.numObjects
    ensures off == OffsetEntry(d, i)
  {
    EntryInside(d, i);
    off := GetSizedInt(d.data, d.tr.offsetTableOffset + Span(i, d.tr.offsetIntSize), d.tr.offsetIntSize);
  }

  datatype TopLevel = TopLevel(tr: Trailer, offset: nat, marker: byte)

  /** The trailer, and offset and marker of the top object, of a well-formed byte string. */
  function TopOf(data: seq<byte>): (top: TopLevel)
    requires WellFormed(data)
    ensures 8 <= top.offset < top.tr.offsetTableOffset
  {
    var d := Doc(data, TrailerAt(data));
    var off := OffsetEntry(d, d.tr.topObject);
    TopLevel(d.tr, off, data[off])
  }

  /**
    `__CFBinaryPlistGetTopLevelInfo` for data at address `base`. It accepts exactly the
    well-formed byte strings: no wrapped product or sum slips through, and no overflow test
    rejects a string whose parts add up.
   */
  method GetTopLevelInfo(base: nat, data: seq<byte>) returns (r: Option<TopLevel>)
    requires base + |data| < TWO64
    ensures r.Some? <==> WellFormed(data)
    ensures r.Some? ==> r.value == TopOf(data)
  {
    if |data| < TRAILER_SIZE + 8 + 1 { return None; }
    if HEADER != data[..7] { return None; }
    var tr := TrailerAt(data);
    var d := Doc(data, tr);
    var sizesOk := CheckSizes(base, data, tr);
    if !sizesOk { return None; }
    var entriesOk := CheckEntries(d);
    if !entriesOk { return None; }
    var off := ReadEntry(d, tr.topObject);
    if off < 8 || tr.offsetTableOffset <= off { return None; }
    r := Some(TopLevel(tr, off, data[off]));
  }

  // ---------- One object

  /** All that decoding one object needs of the data: the object table lies inside it. */
  predicate Bounded(d: Doc) {
    9 <= d.tr.offsetTableOffset <= |d.data| && d.tr.offsetTableOffset <= LONG_MAX
  }

  /** Whether `n` bytes starting at `p` end inside the object table. */
  predicate Fits(d: Doc, p: nat, n: nat) {
    p + n <= d.tr.offsetTableOffset
  }

  /**
    The test as the source makes it, on addresses in wrapping arithmetic: multiply, add, and
    compare the last byte's address with that of the last object byte.
   */
  predicate ExtentTest(base: nat, d: Doc, p: nat, count: nat, size: nat)
    requires Checked(d) && base + |d.data| < TWO64
    requires 1 <= p <= d.tr.offsetTableOffset && count < TWO64 && size < TWO64
  {
    var (byteCount, err) := CheckedMul(count, size);
    && !err
    && var (sum, err') := CheckedAdd(base + p, byteCount);
    && !err' && sum - 1 <= base + d.tr.offsetTableOffset - 1
  }

  /** The wrapping test admits exactly the extents that fit. */
  lemma ExtentTestIsFits(base: nat, d: Doc, p: nat, count: nat, size: nat)
    requires Checked(d) && base + |d.data| < TWO64
    requires 1 <= p <= d.tr.offsetTableOffset && count < TWO64 && size < TWO64
    ensures ExtentTest(base, d, p, count, size) <==> Fits(d, p, Span(count, size))
  {
    SpanIsProduct(count, size);
    var (byteCount, err) := CheckedMul(count, size);
    if !err {
      var (_, err') := CheckedAdd(base + p, byteCount);
    }
  }

  /** The test on a UTF-16 string adds the count twice, after stepping back to the last byte. */
  predicate TwoStepTest(base: nat, d: Doc, p: nat, count: nat)
    requires Checked(d) && base + |d.data| < TWO64 && 1 <= p <= d.tr.offsetTableOffset && count < TWO64
  {
    var (once, err) := CheckedAdd(base + p, count);
    var (twice, err') := CheckedAdd((once - 1) % TWO64, count);
    !err && !err' && twice <= base + d.tr.offsetTableOffset - 1
  }

  lemma TwoStepTestIsFits(base: nat, d: Doc, p: nat, count: nat)
    requires Checked(d) && base + |d.data| < TWO64 && 1 <= p <= d.tr.offsetTableOffset && count < TWO64
    ensures TwoStepTest(base, d, p, count) <==> Fits(d, p, 2 * count)
    ensures Fits(d, p, 2 * count) ==> !CheckedMul(count, 2).1
  {
    hide Checked;
    CheckedSize(d);
    var (once, err) := CheckedAdd(base + p, count);
    assert !err ==> (once - 1) % TWO64 == base + p + count - 1;
  }

  lemma CheckedSize(d: Doc)
    requires Checked(d)
    ensures d.tr.offsetTableOffset <= |d.data|
  {
  }

  /**
    `_readInt`: the value of the integer object at `p` and the position after it. The byte
    count is passed on in eight bits, so 256 or more of them read as zero.
   */
  function ReadInt(d: Doc, p: nat): (r: Option<(nat, nat)>)
    requires Bounded(d)
    ensures r.Some? ==> r.value.0 < TWO64 && p < r.value.1 <= d.tr.offsetTableOffset
  {
    if !(p < d.tr.offsetTableOffset) then None else
    var marker := d.data[p];
    if marker / 16 != 0x1 then None else
    var cnt := Pow2(marker % 16);
    if !Fits(d, p + 1, cnt) then None else
    Some((SizedInt(d.data, p + 1, cnt % 256), p + 1 + cnt))
  }

  /** The element count of the object at `off`, and where its contents start. */
  function ReadCount(d: Doc, off: nat): (r: Option<(nat, nat)>)
    requires Bounded(d) && off < d.tr.offsetTableOffset
    ensures r.Some? ==> r.value.0 <= LONG_MAX && off < r.value.1 <= d.tr.offsetTableOffset
  {
    var low := d.data[off] % 16;
    if low != 0xF then Some((low, off + 1)) else
    match ReadInt(d, off + 1)
    case None => None
    case Some((n, p)) => if LONG_MAX < n then None else Some((n, p))
  }

  /** Where `_getOffsetOfRefAt` leads: the offset the reference at `p` stands for. */
  function OffsetOfRefAt(d: Doc, p: nat): (off: nat)
    requires Checked(d)
    ensures off < d.tr.offsetTableOffset || off == MAX_OFFSET
  {
    if p < 8 || d.tr.offsetTableOffset - d.tr.objectRefSize < p then MAX_OFFSET else
    var ref := SizedInt(d.data, p, d.tr.objectRefSize);
    if d.tr.numObjects <= ref then MAX_OFFSET else OffsetEntry(d, ref)
  }

  function Signed64(n: nat): int {
    if n < TWO64 / 2 then n else n - TWO64
  }

  /** One object without its children; `first` is the position of a container's references. */
  datatype Shallow = Atom(scalar: Scalar) | Refs(kind: Kind, first: nat, count: nat)

  function DecodeInt(d: Doc, off: nat): (r: Option<Shallow>)
    requires Bounded(d) && off < d.tr.offsetTableOffset
  {
    var cnt := Pow2(d.data[off] % 16);
    if !Fits(d, off + 1, cnt) then None
    else if 16 < cnt then None
    else
      var n := SizedInt(d.data, off + 1, cnt);
      Some(Atom(if 8 < cnt then Int(n, true) else Int(Signed64(n), false)))
  }

  function DecodeReal(d: Doc, off: nat): (r: Option<Shallow>)
    requires Bounded(d) && off < d.tr.offsetTableOffset
  {
    var low := d.data[off] % 16;
    if low == 2 && Fits(d, off + 1, 4) then Some(Atom(Real(d.data[off + 1..off + 5])))
    else if low == 3 && Fits(d, off + 1, 8) then Some(Atom(Real(d.data[off + 1..off + 9])))
    else None
  }

  function DecodeDate(d: Doc, off: nat): (r: Option<Shallow>)
    requires Bounded(d) && off < d.tr.offsetTableOffset
  {
    if d.data[off] == 0x33 && Fits(d, off + 1, 8) then Some(Atom(Date(d.data[off + 1..off + 9])))
    else None
  }

  function DecodeData(d: Doc, off: nat): (r: Option<Shallow>)
    requires Bounded(d) && off < d.tr.offsetTableOffset
  {
    match ReadCount(d, off)
    case None => None
    case Some((n, p)) => if !Fits(d, p, n) then None else Some(Atom(Data(d.data[p..p + n])))
  }

  /** Bytes of an eight-bit string; the source reads "ASCII" as ISO Latin-1. */
  function Widen(s: seq<byte>): (cs: seq<u16>)
    ensures |cs| == |s| && forall i :: 0 <= i < |s| ==> cs[i] == s[i]
  {
    seq(|s|, i requires 0 <= i < |s| => s[i])
  }

  function DecodeAscii(d: Doc, off: nat): (r: Option<Shallow>)
    requires Bounded(d) && off < d.tr.offsetTableOffset
  {
    match ReadCount(d, off)
    case None => None
    case Some((n, p)) => if !Fits(d, p, n) then None else Some(Atom(Text(Widen(d.data[p..p + n]))))
  }

  function Unit(high: byte, low: byte): u16 {
    var h: int := high;
    256 * h + low
  }

  /** Big-endian byte pairs as UTF-16 code units. */
  function Units(s: seq<byte>, n: nat): (cs: seq<u16>)
    requires |s| == 2 * n
    ensures |cs| == n
  {
    seq(n, i requires 0 <= i < n => Unit(s[2 * i], s[2 * i + 1]))
  }

  function DecodeUnicode(d: Doc, off: nat): (r: Option<Shallow>)
    requires Bounded(d) && off < d.tr.offsetTableOffset
  {
    match ReadCount(d, off)
    case None => None
    case Some((n, p)) =>
      if !Fits(d, p, 2 * n) then None else Some(Atom(Text(Units(d.data[p..p + 2 * n], n))))
  }

  function DecodeUid(d: Doc, off: nat): (r: Option<Shallow>)
    requires Bounded(d) && off < d.tr.offsetTableOffset
  {
    var cnt := d.data[off] % 16 + 1;
    if !Fits(d, off + 1, cnt) then None else
    var n := SizedInt(d.data, off + 1, cnt);
    if 0xFFFF_FFFF < n then None else Some(Atom(Uid(n)))
  }

  /** The reference list of a container; a dictionary holds two references per entry. */
  function DecodeRefs(d: Doc, off: nat, kind: Kind): (r: Option<Shallow>)
    requires Bounded(d) && off < d.tr.offsetTableOffset
    ensures r.Some? ==> r.value.Refs? && r.value.kind == kind
    ensures r.Some? ==> off < r.value.first && Fits(d, r.value.first, Span(r.value.count, d.tr.objectRefSize))
    ensures r.Some? && kind.Dict? ==> r.value.count % 2 == 0
  {
    match ReadCount(d, off)
    case None => None
    case Some((n, p)) =>
      var count := if kind.Dict? then 2 * n else n;
      if !Fits(d, p, Span(count, d.tr.objectRefSize)) then None
      else if TWO64 <= 8 * count then None
      else Some(Refs(kind, p, count))
  }

  /** The object that starts at byte `off`, by the high half of its marker. */
  function Decode(d: Doc, off: nat): (r: Option<Shallow>)
    requires Bounded(d)
    ensures r.Some? ==> 8 <= off < d.tr.offsetTableOffset
    ensures r.Some? && r.value.Refs? ==>
              && Fits(d, r.value.first, Span(r.value.count, d.tr.objectRefSize))
              && (r.value.kind.Dict? ==> r.value.count % 2 == 0)
  {
    if off < 8 || d.tr.offsetTableOffset - 1 < off then None else
    var marker := d.data[off];
    match marker / 16
    case 0x0 =>
      if marker == 0x00 then Some(Atom(Null))
      else if marker == 0x08 then Some(Atom(Bool(false)))
      else if marker == 0x09 then Some(Atom(Bool(true)))
      else None
    case 0x1 => DecodeInt(d, off)
    case 0x2 => DecodeReal(d, off)
    case 0x3 => DecodeDate(d, off)
    case 0x4 => DecodeData(d, off)
    case 0x5 => DecodeAscii(d, off)
    case 0x6 => DecodeUnicode(d, off)
    case 0x8 => DecodeUid(d, off)
    case 0xA => DecodeRefs(d, off, Array)
    case 0xC => DecodeRefs(d, off, Set)
    case 0xD => DecodeRefs(d, off, Dict)
    case _ => None
  }

  /** Offset of child `i` of a container. */
  function ChildOffset(d: Doc, s: Shallow, i: nat): (off: nat)
    requires Checked(d) && s.Refs?
  {
    OffsetOfRefAt(d, s.first + Span(i, d.tr.objectRefSize))
  }
}
