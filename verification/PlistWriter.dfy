/**
  Writing a binary property list: encoding each object of a flattened graph through the write
  buffer, and laying out the file.
 */
module PlistWriter {
  import opened BigEndian
  import opened Machine
  import opened PlistFormat
  import opened PlistBuffer
  import opened PlistEncode
  import opened PlistFlatten

  // ---------- Appending objects

  method AppendInt(buf: WriteBuffer, n: nat)
    requires buf.Valid() && n < TWO64
    modifies buf, buf.buffer
    ensures buf.Valid() && buf.history == old(buf.history) + EncodeInt(n)
    ensures buf.error <== old(buf.error)
  {
    hide WriteBuffer.Valid, ToBE;
    var marker: byte, nbytes: nat;
    if n <= 0xFF {
      nbytes, marker := 1, 0x10;
    } else if n <= 0xFFFF {
      nbytes, marker := 2, 0x11;
    } else if n <= 0xFFFF_FFFF {
      nbytes, marker := 4, 0x12;
    } else {
      nbytes, marker := 8, 0x13;
    }
    buf.BufferWrite([marker]);
    buf.BufferWrite(ToBE(n, nbytes));
  }

  method AppendUid(buf: WriteBuffer, n: nat)
    requires buf.Valid() && n < TWO64
    modifies buf, buf.buffer
    ensures buf.Valid() && buf.history == old(buf.history) + EncodeUid(n)
    ensures buf.error <== old(buf.error)
  {
    var nbytes := if n <= 0xFF then 1 else if n <= 0xFFFF then 2 else if n <= 0xFFFF_FFFF then 4 else 8;
    buf.BufferWrite([0x80 + nbytes - 1]);
    buf.BufferWrite(ToBE(n, nbytes));
  }

  method AppendCount(buf: WriteBuffer, high: byte, count: nat)
    requires buf.Valid() && high <= 0xF0 && count < TWO64
    modifies buf, buf.buffer
    ensures buf.Valid() && buf.history == old(buf.history) + EncodeCount(high, count)
    ensures buf.error <== old(buf.error)
  {
    hide WriteBuffer.Valid, EncodeInt;
    buf.BufferWrite([high + (if count < 15 then count else 0xF)]);
    if 15 <= count {
      AppendInt(buf, count);
    }
  }

  method AppendString(buf: WriteBuffer, chars: seq<u16>)
    requires buf.Valid() && |chars| < TWO64
    modifies buf, buf.buffer
    ensures buf.Valid() && buf.history == old(buf.history) + EncodeText(chars)
    ensures buf.error <== old(buf.error)
  {
    hide EncodeCount, Narrow, Pairs, WriteBuffer.Valid;
    if IsAscii(chars) {
      AppendCount(buf, 0x50, |chars|);
      buf.BufferWrite(Narrow(chars));
    } else {
      AppendCount(buf, 0x60, |chars|);
      buf.BufferWrite(Pairs(chars));
    }
  }

  method AppendNumber(buf: WriteBuffer, v: Scalar)
    requires buf.Valid() && (v.Int? || v.Real?)
    modifies buf, buf.buffer
    ensures buf.Valid() && buf.history == old(buf.history) + EncodeScalar(v)
    ensures buf.error <== old(buf.error)
  {
    hide WriteBuffer.Valid, ToBE, EncodeInt;
    match v
    case Real(payload) =>
      buf.BufferWrite([if |payload| == 4 then 0x22 else 0x23]);
      buf.BufferWrite(payload);
    case Int(n, wide) =>
      if wide {
        var u := Unsigned(n, TWO128);
        buf.BufferWrite([0x14]);
        buf.BufferWrite(ToBE(u / TWO64, 8) + ToBE(u % TWO64, 8));
        assert [0x14] + (ToBE(u / TWO64, 8) + ToBE(u % TWO64, 8)) == EncodeScalar(v);
      } else {
        AppendInt(buf, Unsigned(n, TWO64));
      }
  }

  /** The numbers the table gives; a missing one reads as zero. */
  function NumbersOf(refs: seq<Ref>, table: map<Ref, nat>): (ns: seq<nat>)
    ensures |ns| == |refs|
  {
    seq(|refs|, i requires 0 <= i < |refs| => if refs[i] in table then table[refs[i]] else 0)
  }

  method AppendRefs(buf: WriteBuffer, refs: seq<Ref>, table: map<Ref, nat>, size: nat)
    requires buf.Valid()
    modifies buf, buf.buffer
    ensures buf.Valid() && buf.history == old(buf.history) + RefBytes(NumbersOf(refs, table), size)
    ensures buf.error <== old(buf.error)
  {
    hide WriteBuffer.Valid, ToBE;
    ghost var ns := NumbersOf(refs, table);
    var idx := 0;
    while idx < |refs|
      invariant 0 <= idx <= |refs|
      invariant buf.Valid() && buf.history == old(buf.history) + RefBytes(ns[..idx], size)
      invariant buf.error <== old(buf.error)
    {
      var refnum := if refs[idx] in table then table[refs[idx]] else 0;
      buf.BufferWrite(ToBE(refnum, size));
      assert ns[..idx + 1][..idx] == ns[..idx];
      idx := idx + 1;
    }
    assert ns[..idx] == ns;
  }

  /** The encoding of one object under a numbering. */
  function ObjectBytes(o: Obj, table: map<Ref, nat>, size: nat): (s: seq<byte>)
    requires WritableObj(o)
  {
    match o
    case Plain(v) => EncodeScalar(v)
    case Holder(kind, refs) => EncodeRefs(kind, NumbersOf(refs, table), size)
  }

  /** Counts an object may have in memory. */
  predicate Countable(o: Obj) {
    match o
    case Plain(Data(bytes)) => |bytes| < TWO64
    case Plain(Text(chars)) => |chars| < TWO64
    case Plain(Uid(n)) => n < TWO64
    case Plain(_) => true
    case Holder(_, refs) => |refs| < TWO64
  }

  method AppendData(buf: WriteBuffer, bytes: seq<byte>)
    requires buf.Valid() && |bytes| < TWO64
    modifies buf, buf.buffer
    ensures buf.Valid() && buf.history == old(buf.history) + (EncodeCount(0x40, |bytes|) + bytes)
    ensures buf.error <== old(buf.error)
  {
    hide EncodeCount, WriteBuffer.Valid;
    AppendCount(buf, 0x40, |bytes|);
    buf.BufferWrite(bytes);
  }

  method AppendDate(buf: WriteBuffer, payload: seq<byte>)
    requires buf.Valid()
    modifies buf, buf.buffer
    ensures buf.Valid() && buf.history == old(buf.history) + ([0x33] + payload)
    ensures buf.error <== old(buf.error)
  {
    hide WriteBuffer.Valid;
    buf.BufferWrite([0x33]);
    buf.BufferWrite(payload);
  }

  method AppendScalar(buf: WriteBuffer, v: Scalar) returns (ok: bool)
    requires buf.Valid() && Countable(Plain(v))
    modifies buf, buf.buffer
    ensures buf.Valid()
    ensures ok <==> WritableScalar(v)
    ensures ok ==> buf.history == old(buf.history) + EncodeScalar(v)
    ensures buf.error <== old(buf.error)
  {
    hide EncodeInt, EncodeText, EncodeCount, EncodeNumber, EncodeUid, WriteBuffer.Valid;
    ok := true;
    match v
    case Text(chars) => AppendString(buf, chars);
    case Int(_, _) => AppendNumber(buf, v);
    case Real(_) => AppendNumber(buf, v);
    case Bool(b) => buf.BufferWrite([if b then 0x09 else 0x08]);
    case Data(bytes) => AppendData(buf, bytes);
    case Date(payload) => AppendDate(buf, payload);
    case Uid(n) => AppendUid(buf, n);
    case _ => ok := false;
  }

  /** `_appendObject` with a numbering; fails on an object of a type the format lacks. */
  method AppendObject(buf: WriteBuffer, o: Obj, table: map<Ref, nat>, size: nat) returns (ok: bool)
    requires buf.Valid() && Countable(o)
    modifies buf, buf.buffer
    ensures buf.Valid()
    ensures ok <==> WritableObj(o)
    ensures ok ==> buf.history == old(buf.history) + ObjectBytes(o, table, size)
    ensures buf.error <== old(buf.error)
  {
    hide EncodeScalar, EncodeCount, RefBytes, WriteBuffer.Valid;
    ok := true;
    match o
    case Plain(v) => ok := AppendScalar(buf, v);
    case Holder(Dict, refs) =>
      AppendCount(buf, 0xD0, |refs| / 2);
      AppendRefs(buf, refs, table, size);
    case Holder(Array, refs) =>
      AppendCount(buf, 0xA0, |refs|);
      AppendRefs(buf, refs, table, size);
    case Holder(Set, refs) => ok := false;
  }

  /**
    `_byteCount`: bytes until the bits above them are zero, rounded up to a power of two.
    `count & (~0 << 8 * size)` is nonzero exactly when `count` is at least 256^size.
   */
  method ByteCount(count: nat) returns (size: nat)
    requires count < TWO64
    ensures size == Width(count)
  {
    Pow256Values();
    size := 0;
    while Pow256(size) <= count
      invariant 0 <= size <= 8
      invariant size > 0 ==> Pow256(size - 1) <= count
      decreases 8 - size
    {
      size := size + 1;
    }
    ghost var needed := size;
    while size != 1 && size != 2 && size != 4 && size != 8 && size <= 8
      invariant needed <= size <= 8
      invariant needed <= 1 ==> size <= 1
      invariant needed <= 2 ==> size <= 2
      invariant needed <= 4 ==> size <= 4
      decreases 8 - size
    {
      size := size + 1;
    }
  }

  // ---------- Writing the file

  /** The encodings of the listed objects. */
  function Parts(g: Graph, list: seq<Ref>, table: map<Ref, nat>, size: nat): (parts: seq<seq<byte>>)
    requires forall i :: 0 <= i < |list| ==> list[i] in g && WritableObj(g[list[i]])
    ensures |parts| == |list|
  {
    seq(|list|, i requires 0 <= i < |list| => ObjectBytes(g[list[i]], table, size))
  }

  /**
    `__CFBinaryPlistWrite`. The flattening is returned as a witness for what was written.
   */
  method Write(g: Graph, root: Ref, same: (Ref, Ref) -> bool, buf: WriteBuffer, ghost t: Plist)
    returns (length: nat, ghost list: seq<Ref>, ghost table: map<Ref, nat>)
    requires Unfolds(g, root, t) && SoundEquality(g, same)
    requires forall r :: r in g ==> Countable(g[r])
    requires buf.Valid() && buf.history == [] && !buf.error
    modifies buf, buf.buffer
    ensures Flattened(g, root, list, table) && |list| <= Size(t)
    ensures list == Kept(g, same, [], Visits(g, root, t)) && AllPlaced(g, same, list, table)
    ensures forall i, j :: 0 <= i < j < |list| && list[i] in g && list[j] in g && g[list[j]].Plain?
                           && (var v := g[list[j]].scalar; v.Text? || v.Int? || v.Real? || v.Date? || v.Data?) ==>
              !same(list[i], list[j])
    ensures length > 0 <==> Writable(t) && !buf.error
    ensures length > 0 ==> WritableFrom(g, list, 0) && length == |buf.stream| && length <= 40 + Bulk(t)
    ensures length > 0 && Size(t) < 0x1_0000_0000 && length < TWO64 ==>
              buf.stream == Image(Parts(g, list, table, Width(|list|)))
    ensures buf.streamIsData ==> !buf.error
  {
    hide Bulk, Size, Kept, Visits, AllPlaced, Placed;
    KeptDistinct(g, same, Visits(g, root, t));
    var f := new Flattener(g, same);
    f.Flatten(root, t);
    list, table := f.objlist, f.objtable;
    WritableRoot(g, root, list, table, t);
    var objlist, objtable := f.objlist, f.objtable;
    length := WriteObjects(g, objlist, objtable, buf);
  }

  /** The tree is writable exactly when every listed object is. */
  lemma WritableRoot(g: Graph, root: Ref, list: seq<Ref>, table: map<Ref, nat>, t: Plist)
    requires Unfolds(g, root, t) && Flattened(g, root, list, table)
    requires Writable(t) ==> WritableFrom(g, list, 0)
    ensures Writable(t) <==> WritableFrom(g, list, 0)
  {
    if WritableFrom(g, list, 0) {
      WritableBelow(g, root, list, table, t);
    }
  }

  lemma {:induction false} WritableBelow(g: Graph, r: Ref, list: seq<Ref>, table: map<Ref, nat>, t: Plist)
    requires Unfolds(g, r, t) && r in table
    requires Numbered(g, list, table) && ClosedFrom(g, list, table, 0) && WritableFrom(g, list, 0)
    ensures Writable(t)
    decreases t
  {
    var r' := list[table[r]];
    assert g[r'] == g[r] && WritableObj(g[r']);
    if t.Node? {
      assert ChildrenNumbered(g, r', table);
      forall i | 0 <= i < |t.children| ensures Writable(t.children[i]) {
        WritableBelow(g, g[r].refs[i], list, table, t.children[i]);
      }
    }
  }

  /** The object loop: bodies, and the offset at which each one starts. */
  method WriteBodies(g: Graph, list: seq<Ref>, table: map<Ref, nat>, size: nat, buf: WriteBuffer)
    returns (ok: bool, offsets: seq<nat>)
    requires forall i :: 0 <= i < |list| ==> list[i] in g && Countable(g[list[i]])
    requires buf.Valid() && |buf.history| == 8
    modifies buf, buf.buffer
    ensures buf.Valid()
    ensures ok <==> WritableFrom(g, list, 0)
    ensures ok ==>
              && buf.history == old(buf.history) + Flat(Parts(g, list, table, size))
              && |offsets| == |list|
              && (!buf.error ==> offsets == Starts(Parts(g, list, table, size)))
    ensures buf.error <== old(buf.error)
  {
    hide ObjectBytes, WritableObj, Flat, Starts, Parts;
    EmptyParts(g, list, table, size);
    offsets := [];
    var idx := 0;
    while idx < |list|
      invariant 0 <= idx <= |list| && |offsets| == idx
      invariant buf.Valid() && (buf.error <== old(buf.error))
      invariant WritableFrom(g, list[..idx], 0)
      invariant buf.history == old(buf.history) + Flat(Parts(g, list[..idx], table, size))
      invariant !buf.error ==> offsets == Starts(Parts(g, list[..idx], table, size))
    {
      assert !buf.error ==> buf.written + buf.used == |buf.history|;
      offsets := offsets + [buf.written + buf.used];
      ok := AppendObject(buf, g[list[idx]], table, size);
      if !ok {
        return;
      }
      PartsSnoc(g, list, table, size, idx);
      idx := idx + 1;
    }
    assert list[..idx] == list;
    ok := true;
  }

  lemma EmptyParts(g: Graph, list: seq<Ref>, table: map<Ref, nat>, size: nat)
    ensures Flat(Parts(g, list[..0], table, size)) == [] && Starts(Parts(g, list[..0], table, size)) == []
  {
  }

  lemma PartsSnoc(g: Graph, list: seq<Ref>, table: map<Ref, nat>, size: nat, n: nat)
    requires n < |list| && WritableFrom(g, list[..n], 0) && list[n] in g && WritableObj(g[list[n]])
    ensures WritableFrom(g, list[..n + 1], 0)
    ensures
      var before, p := Parts(g, list[..n], table, size), ObjectBytes(g[list[n]], table, size);
      var after := Parts(g, list[..n + 1], table, size);
      && Flat(after) == Flat(before) + p
      && Starts(after) == Starts(before) + [8 + |Flat(before)|]
  {
    hide ObjectBytes, WritableObj;
    var before, p := Parts(g, list[..n], table, size), ObjectBytes(g[list[n]], table, size);
    assert forall i :: 0 <= i < n ==> list[..n + 1][i] == list[..n][i];
    assert Parts(g, list[..n + 1], table, size) == before + [p];
    FlatSnoc(before, p);
    StartsSnoc(before, p);
    assert before[..n] == before;
  }

  /** The offset loop. */
  method WriteOffsets(offsets: seq<nat>, size: nat, buf: WriteBuffer)
    requires buf.Valid()
    modifies buf, buf.buffer
    ensures buf.Valid() && buf.history == old(buf.history) + RefBytes(offsets, size)
    ensures buf.error <== old(buf.error)
  {
    var idx := 0;
    while idx < |offsets|
      invariant 0 <= idx <= |offsets|
      invariant buf.Valid() && buf.history == old(buf.history) + RefBytes(offsets[..idx], size)
      invariant buf.error <== old(buf.error)
    {
      buf.BufferWrite(ToBE(offsets[idx], size));
      assert offsets[..idx + 1][..idx] == offsets[..idx];
      idx := idx + 1;
    }
    assert offsets[..idx] == offsets;
  }

  /**
    The part of `__CFBinaryPlistWrite` after flattening. The object count and the length are
    64-bit numbers there; references are cut from 32-bit ones.
   */
  method WriteObjects(g: Graph, list: seq<Ref>, table: map<Ref, nat>, buf: WriteBuffer) returns (length: nat)
    requires forall i :: 0 <= i < |list| ==> list[i] in g && Countable(g[list[i]])
    requires buf.Valid() && buf.history == [] && !buf.error
    modifies buf, buf.buffer
    ensures buf.Valid()
    ensures length > 0 <==> WritableFrom(g, list, 0) && !buf.error
    ensures length > 0 ==> length == |buf.stream| && length <= 40 + ListBulk(g, list)
    ensures length > 0 && |list| < 0x1_0000_0000 && length < TWO64 ==>
              buf.stream == Image(Parts(g, list, table, Width(|list|)))
  {
    hide ListBulk, Parts, Flat, Image, Starts, Width, Countable;
    buf.BufferWrite(HEADER + [0x30]);
    var refSize := ByteCount(|list| % TWO64);
    var ok, offsets := WriteBodies(g, list, table, refSize, buf);
    if !ok {
      return 0;
    }
    PartsBulk(g, list, table, refSize);
    length := WriteTail(Parts(g, list, table, refSize), offsets, refSize, buf);
  }

  /** The bodies and offset entries take no more than the bound. */
  lemma {:induction false} PartsBulk(g: Graph, list: seq<Ref>, table: map<Ref, nat>, size: nat)
    requires WritableFrom(g, list, 0) && size <= 8
    ensures |Flat(Parts(g, list, table, size))| + 8 * |list| <= ListBulk(g, list)
  {
    hide ObjectBytes, WritableObj, Parts, Flat, Starts;
    if list == [] {
      assert list[..0] == list;
      EmptyParts(g, list, table, size);
    } else {
      var n := |list| - 1;
      PartsBulk(g, list[..n], table, size);
      PartsSnoc(g, list, table, size, n);
      assert list[..n + 1] == list;
      ObjectBulk(g, list[n], table, size);
    }
  }

  lemma ObjectBulk(g: Graph, r: Ref, table: map<Ref, nat>, size: nat)
    requires r in g && WritableObj(g[r]) && size <= 8
    ensures |ObjectBytes(g[r], table, size)| + 8 <= ObjBulk(g, r)
  {
    hide EncodeScalar, EncodeRefs, ScalarBulk, NodeBulk;
    match g[r]
    case Plain(v) => ScalarBytes(v);
    case Holder(kind, refs) => RefsBytes(kind, NumbersOf(refs, table), size);
  }

  /** Offset table and trailer. */
  method WriteTail(ghost parts: seq<seq<byte>>, offsets: seq<nat>, refSize: byte, buf: WriteBuffer)
    returns (length: nat)
    requires buf.Valid() && buf.history == HEADER + [0x30] + Flat(parts)
    requires |offsets| == |parts| && (!buf.error ==> offsets == Starts(parts))
    modifies buf, buf.buffer
    ensures buf.Valid()
    ensures length > 0 <==> !buf.error
    ensures length > 0 ==> length == |buf.stream|
    ensures length > 0 ==> length <= 40 + |Flat(parts)| + 8 * |parts|
    ensures length > 0 && refSize == Width(|parts|) && length < TWO64 ==> buf.stream == Image(parts)
  {
    FlatIsObjectTable(parts);
    hide Parts, RefBytes, ToBE, Flat, Image, Starts, StartOf, TrailerBytes, Width, Span;
    var soFar := buf.written + buf.used;
    assert !buf.error ==> soFar == StartOf(parts, |parts|);
    var intSize := ByteCount(soFar % TWO64);
    WriteOffsets(offsets, intSize, buf);
    buf.BufferWrite(TrailerBytes(Trailer(intSize, refSize, |offsets|, 0, soFar)));
    buf.BufferFlush();
    if buf.error {
      return 0;
    }
    length := soFar + |offsets| * intSize + TRAILER_SIZE;
    TailLength(parts, soFar, intSize, refSize);
  }

  lemma TailLength(parts: seq<seq<byte>>, soFar: nat, intSize: byte, refSize: byte)
    requires soFar == StartOf(parts, |parts|) == 8 + |Flat(parts)| && intSize == Width(soFar % TWO64)
    ensures
      var length := soFar + |parts| * intSize + TRAILER_SIZE;
      var s := HEADER + [0x30] + Flat(parts) + RefBytes(Starts(parts), intSize)
               + TrailerBytes(Trailer(intSize, refSize, |parts|, 0, soFar));
      && 0 < length == |s| <= 40 + |Flat(parts)| + 8 * |parts|
      && (refSize == Width(|parts|) && length < TWO64 ==> s == Image(parts))
  {
    hide Parts, RefBytes, ToBE, Flat, Image, Starts, StartOf, TrailerBytes, Width, Span;
    SpanIsProduct(|parts|, intSize);
    SpanBound(|parts|, intSize);
    ImageAssembled(parts, intSize, refSize);
    assert soFar < TWO64 ==> intSize == Width(soFar);
  }

  lemma FlatIsObjectTable(parts: seq<seq<byte>>)
    ensures 8 + |Flat(parts)| == StartOf(parts, |parts|)
  {
    assert parts[..|parts|] == parts;
  }

  lemma ImageAssembled(parts: seq<seq<byte>>, intSize: byte, refSize: byte)
    ensures
      var table := StartOf(parts, |parts|);
      var s := HEADER + [0x30] + Flat(parts) + RefBytes(Starts(parts), intSize)
               + TrailerBytes(Trailer(intSize, refSize, |parts|, 0, table));
      && table <= |s| == table + Span(|parts|, intSize) + TRAILER_SIZE
      && (intSize == Width(table) && refSize == Width(|parts|) ==> s == Image(parts))
  {
    FlatIsObjectTable(parts);
  }
}
