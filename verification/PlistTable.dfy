/** The table of object formats in the comment on the file format, for the reader and for the writer. */
module PlistTable {
  import opened BigEndian
  import opened Machine
  import opened PlistFormat
  import opened PlistEncode
  import opened PlistRoundTrip

  // ---------- Stored numbers, byte by byte

  /** Byte `i` of `k` counts 256 to the number of bytes after it. */
  lemma {:induction false} StoredByte(n: nat, k: nat, i: nat)
    requires i < k
    ensures ToBE(n, k)[i] == (n / Pow256(k - 1 - i)) % 256
  {
    if i < k - 1 {
      StoredByte(n / 256, k - 1, i);
      DivTwice(n, Pow256(k - 2 - i));
    }
  }

  lemma DivTwice(n: nat, p: nat)
    requires p > 0
    ensures (n / 256) / p == n / (256 * p)
  {
    var q := (n / 256) / p;
    var r := (n / 256) % p;
    assert n / 256 == q * p + r && n == 256 * (n / 256) + n % 256;
    assert n == (256 * p) * q + (256 * r + n % 256) by { Spread(p, q, r, n); }
    assert 256 * r + n % 256 < 256 * p;
    QuotientIs(n, 256 * p, q, 256 * r + n % 256);
  }

  lemma Spread(p: nat, q: nat, r: nat, n: nat)
    requires n == 256 * (q * p + r) + n % 256
    ensures n == (256 * p) * q + (256 * r + n % 256)
  {
  }

  lemma QuotientIs(n: nat, d: nat, q: nat, r: nat)
    requires d > 0 && n == d * q + r && r < d
    ensures n / d == q
  {
    var q' := n / d;
    assert d * q' <= n < d * (q' + 1);
    if q' < q {
      Times(d, q' + 1, q);
      assert false;
    }
    if q < q' {
      Times(d, q + 1, q');
      assert false;
    }
  }

  lemma Times(d: nat, x: nat, y: nat)
    requires x <= y
    ensures d * x <= d * y
  {
    assert d * (y - x) >= 0;
  }

  // ---------- Reading

  /** A marker with its count, in the low half or as an integer of one, two, four or eight bytes. */
  predicate IsHeader(high: byte, n: nat, hd: seq<byte>) {
    || (n < 15 && hd == [high + n])
    || (|hd| in {3, 4, 6, 10} && hd[0] == high + 15 && FromBE(hd[2..]) == n
        && hd[1] == 0x10 + (if |hd| == 3 then 0 else if |hd| == 4 then 1 else if |hd| == 6 then 2 else 3))
  }

  lemma ReadsHeader(d: Doc, off: nat, high: byte, n: nat, hd: seq<byte>)
    requires high <= 0xF0 && high % 16 == 0 && n <= LONG_MAX && IsHeader(high, n, hd) && At(d, off, hd)
    ensures d.data[off] / 16 == high / 16 && ReadCount(d, off) == Some((n, off + |hd|))
  {
    Pow2Values();
    hide Pow2, FromBE, Pow256;
    var s := d.data[off..off + |hd|];
    assert d.data[off] == s[0];
    if |hd| > 1 {
      assert d.data[off + 1] == s[1] && d.data[off + 2..off + |hd|] == s[2..];
    }
  }

  /** A string, data or container is read as its header and what follows it say. */
  lemma ReadsCounted(d: Doc, off: nat, n: nat, hd: seq<byte>, rest: seq<byte>)
    requires n <= LONG_MAX && At(d, off, hd + rest)
    ensures IsHeader(0x40, n, hd) && |rest| == n ==> Decode(d, off) == Some(Atom(Data(rest)))
    ensures IsHeader(0x50, n, hd) && |rest| == n ==>
              Decode(d, off) == Some(Atom(Text(seq(n, i requires 0 <= i < n => rest[i]))))
    ensures IsHeader(0x60, n, hd) && |rest| == 2 * n ==>
              Decode(d, off) == Some(Atom(Text(seq(n, i requires 0 <= i < n => Unit(rest[2 * i], rest[2 * i + 1])))))
    ensures IsHeader(0xA0, n, hd) && |rest| == Span(n, d.tr.objectRefSize) && n < TWO64 / 8 ==>
              Decode(d, off) == Some(Refs(Array, off + |hd|, n))
    ensures IsHeader(0xC0, n, hd) && |rest| == Span(n, d.tr.objectRefSize) && n < TWO64 / 8 ==>
              Decode(d, off) == Some(Refs(Set, off + |hd|, n))
    ensures IsHeader(0xD0, n, hd) && |rest| == Span(2 * n, d.tr.objectRefSize) && 2 * n < TWO64 / 8 ==>
              Decode(d, off) == Some(Refs(Dict, off + |hd|, 2 * n))
  {
    hide IsHeader, Decode, Span;
    ReadsBytes(d, off, n, hd, rest);
    if IsHeader(0x60, n, hd) && |rest| == 2 * n {
      ReadsUnits(d, off, n, hd, rest);
    }
    ReadsContainers(d, off, n, hd, rest);
  }

  lemma ReadsBytes(d: Doc, off: nat, n: nat, hd: seq<byte>, rest: seq<byte>)
    requires n <= LONG_MAX && At(d, off, hd + rest)
    ensures IsHeader(0x40, n, hd) && |rest| == n ==> Decode(d, off) == Some(Atom(Data(rest)))
    ensures IsHeader(0x50, n, hd) && |rest| == n ==>
              Decode(d, off) == Some(Atom(Text(seq(n, i requires 0 <= i < n => rest[i]))))
  {
    AtSplit(d, off, hd, rest);
    hide IsHeader, ReadCount, Span, Decode;
    if IsHeader(0x40, n, hd) && |rest| == n {
      ReadsHeader(d, off, 0x40, n, hd);
      Dispatch(d, off);
    }
    if IsHeader(0x50, n, hd) && |rest| == n {
      ReadsHeader(d, off, 0x50, n, hd);
      Dispatch(d, off);
    }
  }

  lemma ReadsUnits(d: Doc, off: nat, n: nat, hd: seq<byte>, rest: seq<byte>)
    requires n <= LONG_MAX && At(d, off, hd + rest) && IsHeader(0x60, n, hd) && |rest| == 2 * n
    ensures Decode(d, off) == Some(Atom(Text(seq(n, i requires 0 <= i < n => Unit(rest[2 * i], rest[2 * i + 1])))))
  {
    AtSplit(d, off, hd, rest);
    hide IsHeader, ReadCount, Span, Decode;
    ReadsHeader(d, off, 0x60, n, hd);
    Dispatch(d, off);
    assert d.data[off + |hd|..off + |hd| + 2 * n] == rest;
    assert Units(rest, n) == seq(n, i requires 0 <= i < n => Unit(rest[2 * i], rest[2 * i + 1]));
  }

  lemma ReadsContainers(d: Doc, off: nat, n: nat, hd: seq<byte>, rest: seq<byte>)
    requires n <= LONG_MAX && At(d, off, hd + rest)
    ensures IsHeader(0xA0, n, hd) && |rest| == Span(n, d.tr.objectRefSize) && n < TWO64 / 8 ==>
              Decode(d, off) == Some(Refs(Array, off + |hd|, n))
    ensures IsHeader(0xC0, n, hd) && |rest| == Span(n, d.tr.objectRefSize) && n < TWO64 / 8 ==>
              Decode(d, off) == Some(Refs(Set, off + |hd|, n))
    ensures IsHeader(0xD0, n, hd) && |rest| == Span(2 * n, d.tr.objectRefSize) && 2 * n < TWO64 / 8 ==>
              Decode(d, off) == Some(Refs(Dict, off + |hd|, 2 * n))
  {
    AtSplit(d, off, hd, rest);
    hide IsHeader, ReadCount, Span;
    if IsHeader(0xA0, n, hd) && |rest| == Span(n, d.tr.objectRefSize) {
      ReadsHeader(d, off, 0xA0, n, hd);
    }
    if IsHeader(0xC0, n, hd) && |rest| == Span(n, d.tr.objectRefSize) {
      ReadsHeader(d, off, 0xC0, n, hd);
    }
    if IsHeader(0xD0, n, hd) && |rest| == Span(2 * n, d.tr.objectRefSize) {
      ReadsHeader(d, off, 0xD0, n, hd);
    }
  }

  lemma MarkerAt(d: Doc, off: nat, m: byte, s: seq<byte>)
    requires At(d, off, [m] + s)
    ensures Bounded(d) && 8 <= off < d.tr.offsetTableOffset && off + 1 + |s| <= d.tr.offsetTableOffset <= |d.data|
    ensures d.data[off] == m && d.data[off + 1..off + 1 + |s|] == s
  {
    AtFirst(d, off, m, s);
  }

  /** Integers: of fewer than eight bytes unsigned, of eight signed, of sixteen cut to eight. */
  lemma ReadsInt(d: Doc, off: nat, m: byte, s: seq<byte>)
    requires At(d, off, [m] + s)
    ensures (m == 0x10 && |s| == 1) || (m == 0x11 && |s| == 2) || (m == 0x12 && |s| == 4) ==>
              Decode(d, off) == Some(Atom(Int(FromBE(s), false)))
    ensures m == 0x13 && |s| == 8 ==>
              Decode(d, off) == Some(Atom(Int(if FromBE(s) < TWO63 then FromBE(s) else FromBE(s) - TWO64, false)))
    ensures m == 0x14 && |s| == 16 ==> Decode(d, off) == Some(Atom(Int(FromBE(s) % TWO64, true)))
  {
    Pow2Values();
    Pow256Values();
    hide Pow2, FromBE, Pow256, At, Decode;
    FromBEBound(s);
    if 0x10 <= m < 0x15 && |s| == Pow2(m - 0x10) {
      ReadsWidth(d, off, m, s);
    }
  }

  lemma ReadsWidth(d: Doc, off: nat, m: byte, s: seq<byte>)
    requires At(d, off, [m] + s) && 0x10 <= m < 0x15 && |s| == Pow2(m - 0x10) <= 16
    ensures Decode(d, off) ==
      Some(Atom(if |s| <= 8 then Int(Signed64(FromBE(s) % TWO64), false) else Int(FromBE(s) % TWO64, true)))
  {
    hide Pow2, FromBE, At, Decode, Signed64;
    MarkerAt(d, off, m, s);
    Dispatch(d, off);
  }

  lemma ReadsUid(d: Doc, off: nat, m: byte, s: seq<byte>)
    requires At(d, off, [m] + s) && 0x80 <= m < 0x90 && |s| == m - 0x80 + 1 && FromBE(s) < 0x1_0000_0000
    ensures Decode(d, off) == Some(Atom(Uid(FromBE(s))))
  {
    hide FromBE, At, Decode;
    MarkerAt(d, off, m, s);
    Dispatch(d, off);
  }

  /** The other objects of fixed size. */
  lemma ReadsFixed(d: Doc, off: nat, m: byte, s: seq<byte>)
    requires At(d, off, [m] + s)
    ensures m == 0x00 ==> Decode(d, off) == Some(Atom(Null))
    ensures m == 0x08 ==> Decode(d, off) == Some(Atom(Bool(false)))
    ensures m == 0x09 ==> Decode(d, off) == Some(Atom(Bool(true)))
    ensures (m == 0x22 && |s| == 4) || (m == 0x23 && |s| == 8) ==> Decode(d, off) == Some(Atom(Real(s)))
    ensures m == 0x33 && |s| == 8 ==> Decode(d, off) == Some(Atom(Date(s)))
  {
    hide At, DecodeInt, DecodeData, DecodeAscii, DecodeUnicode, DecodeUid, DecodeRefs;
    MarkerAt(d, off, m, s);
  }

  /** Bytes of the object table. */
  predicate Stands(d: Doc, p: nat, bytes: seq<byte>) {
    p + |bytes| <= d.tr.offsetTableOffset <= |d.data| && bytes == d.data[p..p + |bytes|]
  }

  /** One byte of the object table for each unit. */
  predicate InBytes(d: Doc, p: nat, chars: seq<u16>) {
    p + |chars| <= d.tr.offsetTableOffset <= |d.data| && forall i :: 0 <= i < |chars| ==> chars[i] == d.data[p + i]
  }

  /** Two bytes of the object table for each unit, the high one first. */
  predicate InPairs(d: Doc, p: nat, chars: seq<u16>) {
    && p + 2 * |chars| <= d.tr.offsetTableOffset <= |d.data|
    && forall i :: 0 <= i < |chars| ==> chars[i] as int == 0x100 * (d.data[p + 2 * i] as int) + d.data[p + 2 * i + 1]
  }

  /** Whatever is read lies between its marker and the offset table. */
  lemma ReadsInside(d: Doc, off: nat)
    requires Bounded(d) && Decode(d, off).Some?
    ensures 8 <= off < d.tr.offsetTableOffset <= |d.data|
    ensures
      var end := d.tr.offsetTableOffset;
      match Decode(d, off).value
      case Refs(_, first, count) => off < first && first + count * d.tr.objectRefSize <= end
      case Atom(Data(bytes)) => exists p :: off < p && Stands(d, p, bytes)
      case Atom(Text(chars)) => exists p :: off < p && (InBytes(d, p, chars) || InPairs(d, p, chars))
      case Atom(Real(payload)) => off + 1 + |payload| <= end && payload == d.data[off + 1..off + 1 + |payload|]
      case Atom(Date(payload)) => off + 9 <= end && payload == d.data[off + 1..off + 9]
      case Atom(Int(_, _)) => 0x10 <= d.data[off] < 0x15 && off + 1 + Pow2(d.data[off] - 0x10) <= end
      case Atom(Uid(_)) => 0x80 <= d.data[off] < 0x90 && off + 1 + (d.data[off] - 0x80) < end
      case Atom(_) => true
  {
    TooWide(d.data[off] % 16);
    if 4 <= d.data[off] / 16 <= 6 {
      StringInside(d, off);
    } else if Decode(d, off).value.Refs? {
      SpanIsProduct(Decode(d, off).value.count, d.tr.objectRefSize);
    }
    hide Pow2, ReadCount, SizedInt, Span;
  }

  lemma StringInside(d: Doc, off: nat)
    requires Bounded(d) && Decode(d, off).Some? && 4 <= d.data[off] / 16 <= 6
    ensures
      match Decode(d, off).value
      case Atom(Data(bytes)) => exists p :: off < p && Stands(d, p, bytes)
      case Atom(Text(chars)) => exists p :: off < p && (InBytes(d, p, chars) || InPairs(d, p, chars))
      case _ => false
  {
    hide ReadCount, Decode, InBytes, InPairs, Stands, Units, Widen;
    Dispatch(d, off);
    var (n, p) := ReadCount(d, off).value;
    assert off < p;
    PlaceInside(d, p, n);
  }

  lemma PlaceInside(d: Doc, p: nat, n: nat)
    requires Bounded(d) && d.tr.offsetTableOffset <= |d.data|
    ensures Fits(d, p, n) ==> Stands(d, p, d.data[p..p + n]) && InBytes(d, p, Widen(d.data[p..p + n]))
    ensures Fits(d, p, 2 * n) ==> InPairs(d, p, Units(d.data[p..p + 2 * n], n))
  {
  }

  /** Markers the table does not have are refused, and so are those it reserves for later versions. */
  lemma RefusesOthers(d: Doc, off: nat)
    requires Bounded(d) && 8 <= off < d.tr.offsetTableOffset
    ensures
      var m := d.data[off];
      Decode(d, off).Some? ==>
        || m in {0x00, 0x08, 0x09, 0x22, 0x23, 0x33}
        || 0x10 <= m < 0x15 || 0x40 <= m < 0x70 || 0x80 <= m < 0x90 || 0xA0 <= m < 0xB0 || 0xC0 <= m < 0xE0
  {
    TooWide(d.data[off] % 16);
    hide Pow2, ReadCount, SizedInt, Span;
  }

  lemma {:induction false} TooWide(k: nat)
    ensures k >= 5 ==> Pow2(k) > 16
  {
    Pow2Values();
    if k > 5 {
      TooWide(k - 1);
    }
  }

  // ---------- Writing

  /** The bytes the writer gives a number: the least of one, two and four bytes, or eight if that is too few or it is negative. */
  lemma WrittenNumber(n: int)
    requires -TWO63 <= n < TWO63
    ensures EncodeScalar(Int(n, false)) ==
            if 0 <= n < 0x100 then [0x10, n]
            else if 0 <= n < 0x1_0000 then [0x11, n / 0x100, n % 0x100]
            else if 0 <= n < 0x1_0000_0000 then [0x12] + ToBE(n, 4)
            else if 0 <= n then [0x13] + ToBE(n, 8)
            else [0x13] + ToBE(TWO64 + n, 8)
  {
    hide ToBE, Pow256;
    if n >= 0 {
      OneByte(n);
      TwoBytes(n);
    }
    TwosComplement(n);
  }

  lemma TwosComplement(n: int)
    requires -TWO63 <= n < TWO63
    ensures n % TWO64 == if n >= 0 then n else TWO64 + n
  {
  }

  lemma WrittenUid(n: nat)
    requires n < 0x1_0000_0000
    ensures EncodeScalar(Uid(n)) ==
            if n < 0x100 then [0x80, n] else if n < 0x1_0000 then [0x81, n / 0x100, n % 0x100] else [0x83] + ToBE(n, 4)
  {
    hide ToBE, Pow256;
    OneByte(n);
    TwoBytes(n);
  }

  lemma WrittenBytes(bytes: seq<byte>)
    ensures EncodeScalar(Bool(false)) == [0x08] && EncodeScalar(Bool(true)) == [0x09]
    ensures |bytes| == 4 ==> EncodeScalar(Real(bytes)) == [0x22] + bytes
    ensures |bytes| == 8 ==> EncodeScalar(Real(bytes)) == [0x23] + bytes
    ensures EncodeScalar(Date(bytes)) == [0x33] + bytes
    ensures |bytes| < 15 ==> EncodeScalar(Data(bytes)) == [0x40 + |bytes|] + bytes
    ensures 15 <= |bytes| < 0x100 ==> EncodeScalar(Data(bytes)) == [0x4F, 0x10, |bytes|] + bytes
  {
    hide ToBE, Pow256;
    Counted(0x40, |bytes|);
  }

  lemma Counted(high: byte, n: nat)
    requires high <= 0xF0
    ensures n < 15 ==> EncodeCount(high, n) == [high + n]
    ensures 15 <= n < 0x100 ==> EncodeCount(high, n) == [high + 15, 0x10, n]
  {
    hide ToBE, Pow256;
    OneByte(n);
  }

  lemma OneByte(n: nat)
    ensures n < 0x100 ==> ToBE(n, 1) == [n]
  {
    assert ToBE(n / 256, 0) == [];
  }

  lemma TwoBytes(n: nat)
    ensures n < 0x1_0000 ==> ToBE(n, 2) == [n / 0x100, n % 0x100]
  {
    OneByte(n / 256);
  }

  lemma WrittenText(chars: seq<u16>)
    ensures IsAscii(chars) && |chars| < 15 ==> EncodeScalar(Text(chars)) == [0x50 + |chars|] + Narrow(chars)
    ensures IsAscii(chars) && 15 <= |chars| < 0x100 ==> EncodeScalar(Text(chars)) == [0x5F, 0x10, |chars|] + Narrow(chars)
    ensures !IsAscii(chars) && |chars| < 15 ==> EncodeScalar(Text(chars)) == [0x60 + |chars|] + Pairs(chars)
    ensures !IsAscii(chars) && 15 <= |chars| < 0x100 ==> EncodeScalar(Text(chars)) == [0x6F, 0x10, |chars|] + Pairs(chars)
  {
    hide EncodeCount, Narrow, Pairs, IsAscii;
    Counted(0x50, |chars|);
    Counted(0x60, |chars|);
  }

  lemma WrittenUnits(chars: seq<u16>, i: nat)
    requires i < |chars|
    ensures IsAscii(chars) <==> forall j :: 0 <= j < |chars| ==> chars[j] < 0x80
    ensures IsAscii(chars) ==> Narrow(chars)[i] == chars[i]
    ensures Pairs(chars)[2 * i] == chars[i] / 0x100 && Pairs(chars)[2 * i + 1] == chars[i] % 0x100
  {
    hide Pairs;
    PairOf(chars, i);
  }

  /** Headers of arrays and dictionaries; references follow in the reference size. */
  lemma WrittenContainers(refs: seq<nat>, size: nat)
    ensures |refs| < 15 ==> EncodeRefs(Array, refs, size) == [0xA0 + |refs|] + RefBytes(refs, size)
    ensures 15 <= |refs| < 0x100 ==> EncodeRefs(Array, refs, size) == [0xAF, 0x10, |refs|] + RefBytes(refs, size)
    ensures |refs| % 2 == 0 && |refs| < 30 ==> EncodeRefs(Dict, refs, size) == [0xD0 + |refs| / 2] + RefBytes(refs, size)
    ensures |refs| % 2 == 0 && 30 <= |refs| < 0x200 ==>
              EncodeRefs(Dict, refs, size) == [0xDF, 0x10, |refs| / 2] + RefBytes(refs, size)
  {
    hide EncodeCount, RefBytes;
    Counted(0xA0, |refs|);
    Counted(0xD0, |refs| / 2);
  }
}
