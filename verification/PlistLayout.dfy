/**
  The layout of a property list file, part by part: every byte string the validator accepts is
  put together from such parts, and every one so put together is accepted.
 */
module PlistLayout {
  import opened BigEndian
  import opened Machine
  import opened PlistFormat
  import opened PlistEncode

  /** The parts of a file; entries of the offset table may be wider than 64 bits. */
  datatype File = File(
    version: byte, objects: seq<byte>, entries: seq<nat>,
    unused: seq<byte>, intSize: byte, refSize: byte, top: nat)

  function Bytes(f: File): (s: seq<byte>) {
    [0x62, 0x70, 0x6C, 0x69, 0x73, 0x74, 0x30, f.version] + f.objects + RefBytes(f.entries, f.intSize)
      + (f.unused + [f.intSize, f.refSize] + ToBE(|f.entries|, 8) + ToBE(f.top, 8) + ToBE(8 + |f.objects|, 8))
  }

  function TrailerIn(f: File): Trailer {
    Trailer(f.intSize, f.refSize, |f.entries|, f.top, 8 + |f.objects|)
  }

  /** The parts fit together: sizes wide enough, every entry before the table, the top object after the header. */
  predicate SoundFile(f: File) {
    && |f.unused| == 6 && f.objects != [] && 1 <= f.intSize && 1 <= f.refSize && f.top < |f.entries|
    && |f.entries| <= LONG_MAX && 8 + |f.objects| <= LONG_MAX && |Bytes(f)| < TWO64
    && (f.refSize < 8 ==> |f.entries| < Pow256(f.refSize))
    && (f.intSize < 8 ==> 8 + |f.objects| < Pow256(f.intSize))
    && (forall i :: 0 <= i < |f.entries| ==>
          f.entries[i] < Pow256(f.intSize) && f.entries[i] % TWO64 < 8 + |f.objects|)
    && 8 <= f.entries[f.top] % TWO64
  }

  // ---------- Tables of numbers

  lemma SpanNext(i: nat, size: nat)
    ensures Span(i + 1, size) == Span(i, size) + size
  {
  }

  lemma RefBytesLast(refs: seq<nat>, size: nat)
    requires refs != []
    ensures var n := |refs| - 1;
      && RefBytes(refs, size) == RefBytes(refs[..n], size) + ToBE(refs[n], size) && |ToBE(refs[n], size)| == size
      && Span(|refs|, size) == Span(n, size) + size && |RefBytes(refs[..n], size)| == Span(n, size)
  {
  }

  /** Number `i` of a table stands at its place. */
  lemma {:induction false} RefBytesAt(refs: seq<nat>, size: nat, i: nat)
    requires i < |refs|
    ensures Span(i, size) + size <= Span(|refs|, size)
    ensures RefBytes(refs, size)[Span(i, size)..Span(i, size) + size] == ToBE(refs[i], size)
  {
    hide RefBytes, ToBE, Span;
    var n := |refs| - 1;
    RefBytesLast(refs, size);
    SpanNext(i, size);
    if i < n {
      RefBytesAt(refs[..n], size, i);
    }
  }

  /** Reading bytes as a number and storing it in as many gives them back. */
  lemma {:induction false} ToFromBE(s: seq<byte>)
    ensures ToBE(FromBE(s), |s|) == s
  {
    if s != [] {
      var n := |s| - 1;
      ToFromBE(s[..n]);
      assert FromBE(s) / 256 == FromBE(s[..n]) && FromBE(s) % 256 == s[n];
      assert s == s[..n] + [s[n]];
    }
  }

  /** The numbers of a table stored in `n` fields. */
  function NumbersIn(s: seq<byte>, n: nat, size: nat): (refs: seq<nat>)
    requires |s| == Span(n, size)
    ensures |refs| == n
    decreases n
  {
    if n == 0 then [] else NumbersIn(s[..Span(n - 1, size)], n - 1, size) + [FromBE(s[Span(n - 1, size)..])]
  }

  lemma {:induction false} NumbersBack(s: seq<byte>, n: nat, size: nat)
    requires |s| == Span(n, size)
    ensures RefBytes(NumbersIn(s, n, size), size) == s
    ensures forall i :: 0 <= i < n ==> NumbersIn(s, n, size)[i] < Pow256(size)
    decreases n
  {
    hide ToBE, FromBE, Pow256, RefBytes, NumbersIn, Span;
    if n == 0 {
      NoNumbers(s, size);
    } else {
      NumbersLast(s, n, size);
      var init, last := s[..Span(n - 1, size)], s[Span(n - 1, size)..];
      NumbersBack(init, n - 1, size);
      NumbersMore(s, NumbersIn(init, n - 1, size), last, size);
    }
  }

  lemma NoNumbers(s: seq<byte>, size: nat)
    requires |s| == Span(0, size)
    ensures NumbersIn(s, 0, size) == [] && RefBytes([], size) == s
  {
  }

  lemma NumbersMore(s: seq<byte>, refs: seq<nat>, last: seq<byte>, size: nat)
    requires s == RefBytes(refs, size) + last && |last| == size
    ensures RefBytes(refs + [FromBE(last)], size) == s && FromBE(last) < Pow256(size)
  {
    hide ToBE, FromBE, Pow256, RefBytes, Span;
    ToFromBE(last);
    FromBEBound(last);
    RefBytesLast(refs + [FromBE(last)], size);
    assert (refs + [FromBE(last)])[..|refs|] == refs;
  }

  lemma NumbersLast(s: seq<byte>, n: nat, size: nat)
    requires |s| == Span(n, size) && n > 0
    ensures Span(n - 1, size) + size == |s|
    ensures NumbersIn(s, n, size) ==
            NumbersIn(s[..Span(n - 1, size)], n - 1, size) + [FromBE(s[Span(n - 1, size)..])]
  {
  }

  // ---------- From the parts to the file

  lemma BytesShape(f: File)
    requires |f.unused| == 6
    ensures
      var s, table := Bytes(f), 8 + |f.objects|;
      var end := table + Span(|f.entries|, f.intSize);
      && |s| == end + 32 && s[..7] == [0x62, 0x70, 0x6C, 0x69, 0x73, 0x74, 0x30] && s[7] == f.version
      && s[8..table] == f.objects && s[table..end] == RefBytes(f.entries, f.intSize)
      && s[end..end + 6] == f.unused && s[end + 6] == f.intSize && s[end + 7] == f.refSize
      && s[end + 8..end + 16] == ToBE(|f.entries|, 8) && s[end + 16..end + 24] == ToBE(f.top, 8)
      && s[end + 24..end + 32] == ToBE(table, 8)
  {
    hide RefBytes, ToBE, Span;
    var s, table := Bytes(f), 8 + |f.objects|;
    var end := table + Span(|f.entries|, f.intSize);
    TailShape(f);
    var tail := s[end..];
    assert tail == f.unused + [f.intSize, f.refSize] + ToBE(|f.entries|, 8) + ToBE(f.top, 8) + ToBE(table, 8);
    assert s[end..end + 6] == tail[..6] && s[end + 6] == tail[6] && s[end + 7] == tail[7];
    assert s[end + 8..end + 16] == tail[8..16] && s[end + 16..end + 24] == tail[16..24];
    assert s[end + 24..end + 32] == tail[24..32];
  }

  lemma TailShape(f: File)
    requires |f.unused| == 6
    ensures
      var t := f.unused + [f.intSize, f.refSize] + ToBE(|f.entries|, 8) + ToBE(f.top, 8) + ToBE(8 + |f.objects|, 8);
      && |t| == 32 && t[..6] == f.unused && t[6] == f.intSize && t[7] == f.refSize
      && t[8..16] == ToBE(|f.entries|, 8) && t[16..24] == ToBE(f.top, 8) && t[24..32] == ToBE(8 + |f.objects|, 8)
  {
    hide ToBE;
  }

  lemma SmallParts(f: File)
    requires SoundFile(f)
    ensures |f.unused| == 6 && |f.entries| < TWO64 && f.top < TWO64 && 8 + |f.objects| < TWO64 && Pow256(8) == TWO64
  {
    Pow256Values();
  }

  lemma BytesTrailer(f: File)
    requires SoundFile(f)
    ensures TrailerAt(Bytes(f)) == TrailerIn(f)
  {
    hide SoundFile, Bytes, RefBytes, ToBE, Span, SizedInt, Pow256;
    SmallParts(f);
    BytesShape(f);
    var s := Bytes(f);
    var p := |s| - 32;
    ReadStored(s, p + 8, |f.entries|, 8);
    ReadStored(s, p + 16, f.top, 8);
    ReadStored(s, p + 24, 8 + |f.objects|, 8);
  }

  lemma BytesLaid(f: File)
    requires SoundFile(f)
    ensures Sized(Doc(Bytes(f), TrailerIn(f)))
  {
    BytesShape(f);
    hide Bytes, RefBytes, ToBE, Span, Pow256;
  }

  lemma BytesEntry(f: File, i: nat)
    requires SoundFile(f) && Laid(Doc(Bytes(f), TrailerIn(f))) && i < |f.entries|
    ensures OffsetEntry(Doc(Bytes(f), TrailerIn(f)), i) == f.entries[i] % TWO64
  {
    hide Bytes, RefBytes, ToBE, FromBE, Span, Pow256, Laid;
    var s, table, size := Bytes(f), 8 + |f.objects|, f.intSize;
    BytesShape(f);
    RefBytesAt(f.entries, size, i);
    SliceOfSlice(s, table, Span(|f.entries|, size), Span(i, size), size);
    FromToBE(f.entries[i], size);
  }

  /** What is put together from sound parts is well formed, with the object the top entry leads to on top. */
  lemma SoundAccepted(f: File)
    requires SoundFile(f)
    ensures WellFormed(Bytes(f)) && Checked(Doc(Bytes(f), TrailerIn(f))) && 8 <= f.entries[f.top] % TWO64 < 8 + |f.objects|
    ensures TopOf(Bytes(f)) == TopLevel(TrailerIn(f), f.entries[f.top] % TWO64, f.objects[f.entries[f.top] % TWO64 - 8])
  {
    BytesTrailer(f);
    BytesLaid(f);
    BytesShape(f);
    hide Bytes, RefBytes, ToBE, Span, OffsetEntry, SizedInt, Pow256;
    var s, d := Bytes(f), Doc(Bytes(f), TrailerIn(f));
    forall i | 0 <= i < d.tr.numObjects ensures OffsetEntry(d, i) < d.tr.offsetTableOffset {
      BytesEntry(f, i);
    }
    BytesEntry(f, f.top);
    var off := f.entries[f.top] % TWO64;
    assert s[off] == s[8..8 + |f.objects|][off - 8];
  }

  // ---------- From the file to the parts

  function PartsOf(data: seq<byte>): File
    requires WellFormed(data)
  {
    var tr := TrailerAt(data);
    var table, end := tr.offsetTableOffset, |data| - 32;
    File(data[7], data[8..table], NumbersIn(data[table..end], tr.numObjects, tr.offsetIntSize),
         data[end..end + 6], tr.offsetIntSize, tr.objectRefSize, tr.topObject)
  }

  lemma StoredBack(data: seq<byte>, p: nat)
    requires p + 8 <= |data|
    ensures ToBE(SizedInt(data, p, 8), 8) == data[p..p + 8]
  {
    hide ToBE, FromBE, Pow256;
    Pow256Values();
    FromBEBound(data[p..p + 8]);
    ToFromBE(data[p..p + 8]);
  }

  lemma PartsBytes(data: seq<byte>)
    requires WellFormed(data)
    ensures Bytes(PartsOf(data)) == data
  {
    hide ToBE, FromBE, RefBytes, NumbersIn, SizedInt, OffsetEntry, Span, Pow256, Bytes;
    var tr := TrailerAt(data);
    var table, end := tr.offsetTableOffset, |data| - 32;
    NumbersBack(data[table..end], tr.numObjects, tr.offsetIntSize);
    StoredBack(data, end + 8);
    StoredBack(data, end + 16);
    StoredBack(data, end + 24);
    Assembled(data, PartsOf(data), table, end);
  }

  lemma Assembled(data: seq<byte>, f: File, table: nat, end: nat)
    requires 8 <= table <= end && |data| == end + 32
    requires data[..7] == [0x62, 0x70, 0x6C, 0x69, 0x73, 0x74, 0x30] && data[7] == f.version
    requires data[8..table] == f.objects && data[table..end] == RefBytes(f.entries, f.intSize)
    requires data[end..end + 6] == f.unused && data[end + 6] == f.intSize && data[end + 7] == f.refSize
    requires data[end + 8..end + 16] == ToBE(|f.entries|, 8) && data[end + 16..end + 24] == ToBE(f.top, 8)
    requires data[end + 24..end + 32] == ToBE(table, 8)
    ensures Bytes(f) == data
  {
    hide ToBE, RefBytes;
    TailBytes(data, end);
    assert data == data[..7] + [data[7]] + data[8..table] + data[table..end] + data[end..];
  }

  lemma TailBytes(data: seq<byte>, end: nat)
    requires |data| == end + 32
    ensures data[end..] == data[end..end + 6] + [data[end + 6], data[end + 7]]
                           + data[end + 8..end + 16] + data[end + 16..end + 24] + data[end + 24..end + 32]
  {
  }

  lemma PartsSizes(data: seq<byte>)
    requires WellFormed(data)
    ensures
      var f, tr := PartsOf(data), TrailerAt(data);
      && |f.unused| == 6 && f.objects != [] && f.intSize == tr.offsetIntSize >= 1 && f.refSize == tr.objectRefSize >= 1
      && f.top == tr.topObject < |f.entries| && |f.entries| == tr.numObjects <= LONG_MAX
      && 8 + |f.objects| == tr.offsetTableOffset <= LONG_MAX && |data| < TWO64
      && (f.refSize < 8 ==> |f.entries| < Pow256(f.refSize))
      && (f.intSize < 8 ==> 8 + |f.objects| < Pow256(f.intSize))
  {
    hide FromBE, NumbersIn, SizedInt, OffsetEntry, Span, Pow256;
  }

  lemma PartsEntries(data: seq<byte>)
    requires WellFormed(data)
    ensures
      var f, tr := PartsOf(data), TrailerAt(data);
      && f.top < |f.entries| && 8 <= f.entries[f.top] % TWO64
      && forall i :: 0 <= i < |f.entries| ==>
           f.entries[i] < Pow256(f.intSize) && f.entries[i] % TWO64 < tr.offsetTableOffset
  {
    assert |data| >= TRAILER_SIZE;
    hide WellFormed, PartsOf, Pow256, TrailerAt;
    var f := PartsOf(data);
    PartsSizes(data);
    forall i | 0 <= i < |f.entries|
      ensures f.entries[i] < Pow256(f.intSize) && f.entries[i] % TWO64 < TrailerAt(data).offsetTableOffset
      ensures i == f.top ==> 8 <= f.entries[i] % TWO64
    {
      EntryBelow(data, f, i);
    }
  }

  lemma EntryBelow(data: seq<byte>, f: File, i: nat)
    requires WellFormed(data) && f == PartsOf(data) && i < |f.entries|
    ensures f.entries[i] < Pow256(f.intSize) && f.entries[i] % TWO64 < TrailerAt(data).offsetTableOffset
    ensures i == f.top ==> 8 <= f.entries[i] % TWO64
  {
    hide ToBE, FromBE, RefBytes, NumbersIn, Span, Pow256, OffsetEntry, TrailerAt;
    var tr := TrailerAt(data);
    NumbersBack(data[tr.offsetTableOffset..|data| - 32], tr.numObjects, tr.offsetIntSize);
    EntryIs(data, f, i);
  }

  lemma PartsSound(data: seq<byte>)
    requires WellFormed(data)
    ensures SoundFile(PartsOf(data))
  {
    hide WellFormed, PartsOf, Bytes, Pow256, TrailerAt;
    PartsBytes(data);
    PartsSizes(data);
    PartsEntries(data);
  }

  lemma EntryIs(data: seq<byte>, f: File, i: nat)
    requires WellFormed(data) && f == PartsOf(data) && i < |f.entries|
    ensures f.entries[i] % TWO64 == OffsetEntry(Doc(data, TrailerAt(data)), i)
  {
    hide ToBE, FromBE, RefBytes, NumbersIn, Span, Pow256;
    var tr := TrailerAt(data);
    var table, end, size := tr.offsetTableOffset, |data| - 32, tr.offsetIntSize;
    NumbersBack(data[table..end], tr.numObjects, size);
    RefBytesAt(f.entries, size, i);
    SliceOfSlice(data, table, end - table, Span(i, size), size);
    FromToBE(f.entries[i], size);
  }

  // ---------- The validator

  /**
    The validator accepts exactly the byte strings that can be put together from sound parts,
    and returns their trailer, the top object's entry and the byte there.
   */
  method Validate(base: nat, data: seq<byte>) returns (r: Option<TopLevel>)
    requires base + |data| < TWO64
    ensures r.Some? <==> exists f :: SoundFile(f) && Bytes(f) == data
    ensures forall f :: SoundFile(f) && Bytes(f) == data ==>
      && 8 <= f.entries[f.top] % TWO64 < 8 + |f.objects|
      && r == Some(TopLevel(Trailer(f.intSize, f.refSize, |f.entries|, f.top, 8 + |f.objects|),
                            f.entries[f.top] % TWO64, f.objects[f.entries[f.top] % TWO64 - 8]))
  {
    hide Bytes, WellFormed, TopOf, Pow256, PartsOf;
    forall f | SoundFile(f) && Bytes(f) == data
      ensures WellFormed(data) && 8 <= f.entries[f.top] % TWO64 < 8 + |f.objects|
      ensures TopOf(data) == TopLevel(TrailerIn(f), f.entries[f.top] % TWO64, f.objects[f.entries[f.top] % TWO64 - 8])
    {
      SoundAccepted(f);
    }
    if WellFormed(data) {
      PartsBytes(data);
      PartsSound(data);
    }
    r := GetTopLevelInfo(base, data);
  }
}
