/** The byte image of a property list file: what each object and the whole file look like. */
module PlistEncode {
  import opened BigEndian
  import opened Machine
  import opened PlistFormat

  /** What the object types guarantee about their contents. */
  predicate ProperScalar(v: Scalar) {
    match v
    case Int(n, wide) => if wide then -(TWO128 / 2) <= n < TWO128 / 2 else -TWO63 <= n < TWO63
    case Real(payload) => |payload| == 4 || |payload| == 8
    case Date(payload) => |payload| == 8
    case Uid(n) => n < 0x1_0000_0000
    case _ => true
  }

  predicate WritableScalar(v: Scalar) {
    !v.Null? && !v.Foreign?
  }

  /** The smallest of 1, 2, 4 and 8 bytes that holds `n`. */
  function Width(n: nat): (w: nat)
    ensures w in {1, 2, 4, 8} && (n < TWO64 ==> n < Pow256(w))
  {
    Pow256Values();
    if n <= 0xFF then 1 else if n <= 0xFFFF then 2 else if n <= 0xFFFF_FFFF then 4 else 8
  }

  function EncodeInt(n: nat): (s: seq<byte>) {
    var w := Width(n);
    [0x10 + (if w == 1 then 0 else if w == 2 then 1 else if w == 4 then 2 else 3)] + ToBE(n, w)
  }

  function EncodeUid(n: nat): (s: seq<byte>) {
    [0x80 + Width(n) - 1] + ToBE(n, Width(n))
  }

  /** A marker with the count in its low half, or with 15 there and the count as an integer after it. */
  function EncodeCount(high: byte, count: nat): (s: seq<byte>)
    requires high <= 0xF0
  {
    if count < 15 then [high + count] else [high + 15] + EncodeInt(count)
  }

  predicate IsAscii(chars: seq<u16>) {
    forall i :: 0 <= i < |chars| ==> chars[i] < 0x80
  }

  function Narrow(chars: seq<u16>): (s: seq<byte>)
    requires IsAscii(chars)
    ensures |s| == |chars|
  {
    seq(|chars|, i requires 0 <= i < |chars| => chars[i])
  }

  function Pairs(chars: seq<u16>): (s: seq<byte>)
    ensures |s| == 2 * |chars|
  {
    seq(2 * |chars|, i requires 0 <= i < 2 * |chars| => if i % 2 == 0 then chars[i / 2] / 256 else chars[i / 2] % 256)
  }

  function EncodeText(chars: seq<u16>): (s: seq<byte>) {
    if IsAscii(chars) then EncodeCount(0x50, |chars|) + Narrow(chars)
    else EncodeCount(0x60, |chars|) + Pairs(chars)
  }

  /** Two's complement. */
  function Unsigned(n: int, modulus: nat): nat
    requires modulus > 0
  {
    n % modulus
  }

  function EncodeNumber(n: int, wide: bool): (s: seq<byte>) {
    if wide then
      var u := Unsigned(n, TWO128);
      [0x14] + ToBE(u / TWO64, 8) + ToBE(u % TWO64, 8)
    else EncodeInt(Unsigned(n, TWO64))
  }

  function EncodeScalar(v: Scalar): (s: seq<byte>)
    requires WritableScalar(v)
  {
    match v
    case Bool(b) => [if b then 0x09 else 0x08]
    case Int(n, wide) => EncodeNumber(n, wide)
    case Real(payload) => [if |payload| == 4 then 0x22 else 0x23] + payload
    case Date(payload) => [0x33] + payload
    case Data(bytes) => EncodeCount(0x40, |bytes|) + bytes
    case Text(chars) => EncodeText(chars)
    case Uid(n) => EncodeUid(n)
  }

  /** Numbers one after another, `size` bytes each. */
  function RefBytes(refs: seq<nat>, size: nat): (s: seq<byte>)
    ensures |s| == Span(|refs|, size)
  {
    if refs == [] then [] else RefBytes(refs[..|refs| - 1], size) + ToBE(refs[|refs| - 1], size)
  }

  function KindMarker(kind: Kind): byte {
    match kind
    case Array => 0xA0
    case Set => 0xC0
    case Dict => 0xD0
  }

  function EncodeRefs(kind: Kind, refs: seq<nat>, size: nat): (s: seq<byte>) {
    EncodeCount(KindMarker(kind), if kind.Dict? then |refs| / 2 else |refs|) + RefBytes(refs, size)
  }

  /** A bound on the bytes of a scalar and its entry in the offset table. */
  function ScalarBulk(v: Scalar): nat {
    match v
    case Real(payload) => 9 + |payload|
    case Date(payload) => 9 + |payload|
    case Data(bytes) => 18 + |bytes|
    case Text(chars) => 18 + 2 * |chars|
    case _ => 25
  }

  /** The same for a container with `n` children, whose references take at most eight bytes each. */
  function NodeBulk(n: nat): nat { 18 + 8 * n }

  /** A bound on the bytes of a property list in which nothing is shared. */
  function Bulk(t: Plist): (n: nat)
    decreases t, 1
  {
    match t
    case Leaf(v) => ScalarBulk(v)
    case Node(_, children) => NodeBulk(|children|) + BulkAll(children)
  }

  function BulkAll(ts: seq<Plist>): nat
    decreases ts, 0
  {
    if ts == [] then 0 else BulkAll(ts[..|ts| - 1]) + Bulk(ts[|ts| - 1])
  }

  lemma ScalarBytes(v: Scalar)
    requires WritableScalar(v)
    ensures |EncodeScalar(v)| + 8 <= ScalarBulk(v)
  {
    hide ToBE, Narrow, Pairs;
  }

  lemma RefsBytes(kind: Kind, refs: seq<nat>, size: nat)
    requires size <= 8
    ensures |EncodeRefs(kind, refs, size)| + 8 <= NodeBulk(|refs|)
  {
    hide ToBE, RefBytes;
    SpanBound(|refs|, size);
  }

  lemma {:induction false} SpanBound(n: nat, size: nat)
    requires size <= 8
    ensures Span(n, size) <= 8 * n
  {
    if n > 0 {
      SpanBound(n - 1, size);
    }
  }

  // ---------- The file

  function Flat(parts: seq<seq<byte>>): (s: seq<byte>) {
    if parts == [] then [] else Flat(parts[..|parts| - 1]) + parts[|parts| - 1]
  }

  /** Where part `i` starts when the object table starts at byte 8. */
  function StartOf(parts: seq<seq<byte>>, i: nat): (off: nat)
    requires i <= |parts|
    ensures off >= 8
  {
    8 + |Flat(parts[..i])|
  }

  function Starts(parts: seq<seq<byte>>): (offs: seq<nat>)
    ensures |offs| == |parts|
  {
    seq(|parts|, i requires 0 <= i < |parts| => StartOf(parts, i))
  }

  function TopTrailer(parts: seq<seq<byte>>, top: nat): (tr: Trailer) {
    var table := StartOf(parts, |parts|);
    Trailer(Width(table), Width(|parts|), |parts|, top, table)
  }

  function TrailerBytes(tr: Trailer): (s: seq<byte>)
    ensures |s| == TRAILER_SIZE
  {
    [0, 0, 0, 0, 0, 0, tr.offsetIntSize, tr.objectRefSize]
      + ToBE(tr.numObjects, 8) + ToBE(tr.topObject, 8) + ToBE(tr.offsetTableOffset, 8)
  }

  /** The file that holds the given encoded objects, object `top` being the property list. */
  function TopImage(parts: seq<seq<byte>>, top: nat): (s: seq<byte>) {
    HEADER + [0x30] + Flat(parts)
      + RefBytes(Starts(parts), TopTrailer(parts, top).offsetIntSize)
      + TrailerBytes(TopTrailer(parts, top))
  }

  /** The writer's files: the first object is on top. */
  function Image(parts: seq<seq<byte>>): (s: seq<byte>) {
    TopImage(parts, 0)
  }

  lemma FlatSnoc(parts: seq<seq<byte>>, p: seq<byte>)
    ensures Flat(parts + [p]) == Flat(parts) + p
  {
    assert (parts + [p])[..|parts|] == parts;
  }

  lemma StartsSnoc(parts: seq<seq<byte>>, p: seq<byte>)
    ensures Starts(parts + [p]) == Starts(parts) + [StartOf(parts, |parts|)]
  {
    var all := parts + [p];
    forall i | 0 <= i < |all| ensures Starts(all)[i] == (Starts(parts) + [StartOf(parts, |parts|)])[i] {
      assert all[..i] == parts[..i];
    }
  }
}
