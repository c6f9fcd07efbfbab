/** UTF-8 to UTF-16: `__CFFromUTF8`, its length function and the round trips. */
module Utf8Decoder {
  import opened Machine
  import opened Unicode
  import opened Utf8Encoder

  const REPLACEMENT: Code := 0xFFFD

  // ---------- What a byte string stands for

  /** The code point of a UTF8-char. */
  function CharValue(s: seq<Byte>): Code
    requires IsChar(s)
  {
    CharBack(s);
    match |s|
    case 1 => s[0] as bv32
    case 2 => Value2(s[0], s[1])
    case 3 => Value3(s[0], s[1], s[2])
    case 4 => Value4(s[0], s[1], s[2], s[3])
  }

  lemma CharBack(s: seq<Byte>)
    requires IsChar(s)
    ensures |s| == 2 ==> Value2(s[0], s[1]) <= 0x10FFFF
    ensures |s| == 3 ==> Value3(s[0], s[1], s[2]) <= 0x10FFFF
    ensures |s| == 4 ==> Value4(s[0], s[1], s[2], s[3]) <= 0x10FFFF
  {
    hide Value2, Value3, Value4, Form2, Form3, Form4;
    if |s| == 2 {
      Back2(s[0], s[1]);
    } else if |s| == 3 {
      Back3(s[0], s[1], s[2]);
    } else if |s| == 4 {
      Back4(s[0], s[1], s[2], s[3]);
    }
  }

  /** The length of the UTF8-char the bytes begin with, or 0. */
  function CharLen(b: seq<Byte>): (n: nat)
    ensures n <= |b| && n <= 4
  {
    if |b| >= 1 && IsChar(b[..1]) then 1
    else if |b| >= 2 && IsChar(b[..2]) then 2
    else if |b| >= 3 && IsChar(b[..3]) then 3
    else if |b| >= 4 && IsChar(b[..4]) then 4
    else 0
  }

  /**
    How many bytes the first unit of a reading takes, 0 where the reading stops. A byte 0xA9
    that begins no character is let pass, and any other such byte too when the conversion may
    be lossy and the bytes its lead announces are there.
   */
  function First(b: seq<Byte>, lossy: bool): (n: nat)
    ensures n <= |b|
  {
    if b == [] then 0
    else if CharLen(b) > 0 then CharLen(b)
    else if b[0] == 0xA9 || (lossy && Trailing(b[0]) < |b|) then 1
    else 0
  }

  function FirstCode(b: seq<Byte>, lossy: bool): Code
    requires First(b, lossy) > 0
  {
    if CharLen(b) > 0 then CharValue(b[..CharLen(b)]) else REPLACEMENT
  }

  function Decoded(b: seq<Byte>, lossy: bool): seq<Code> {
    var n := First(b, lossy);
    if n == 0 then [] else [FirstCode(b, lossy)] + Decoded(b[n..], lossy)
  }

  /** The bytes the first `k` units of a reading take. */
  function Taken(b: seq<Byte>, lossy: bool, k: nat): (t: nat)
    ensures t <= |b|
    decreases k
  {
    if k == 0 then 0 else First(b, lossy) + Taken(b[First(b, lossy)..], lossy, k - 1)
  }

  /** `trailingBytesForUTF8`. */
  function Trailing(b: Byte): (n: nat)
    ensures n <= 5
  {
    if b < 0xC0 then 0 else if b < 0xE0 then 1 else if b < 0xF0 then 2
    else if b < 0xF8 then 3 else if b < 0xFC then 4 else 5
  }

  // ---------- Characters and their code points

  lemma CharTrailing(s: seq<Byte>)
    requires IsChar(s)
    ensures |s| == Trailing(s[0]) + 1
  {
  }

  lemma CharLenByLead(b: seq<Byte>)
    requires b != []
    ensures Trailing(b[0]) < |b| ==> (CharLen(b) > 0 <==> IsChar(b[..Trailing(b[0]) + 1]))
    ensures CharLen(b) > 0 ==> CharLen(b) == Trailing(b[0]) + 1
  {
    hide IsChar, Trailing;
    if CharLen(b) > 0 {
      CharTrailing(b[..CharLen(b)]);
    }
    if Trailing(b[0]) < |b| && IsChar(b[..Trailing(b[0]) + 1]) {
      CharShort(b[..Trailing(b[0]) + 1]);
    }
  }

  lemma CharShort(s: seq<Byte>)
    requires IsChar(s)
    ensures 1 <= |s| <= 4
  {
  }

  lemma Encoded1(a: Byte)
    requires a <= 0x7F
    ensures IsScalar(a as bv32) && Encode8(a as bv32) == [a]
  {
    OneByte(a);
  }

  lemma Encoded2(a: Byte, b: Byte)
    requires Form2(a, b)
    ensures Value2(a, b) <= 0x10FFFF && IsScalar(Value2(a, b)) && Encode8(Value2(a, b)) == [a, b]
  {
    hide Value2, Form2, Tail, Lead2, Lead3, Lead4;
    Back2(a, b);
  }

  lemma Encoded3(a: Byte, b: Byte, c: Byte)
    requires Form3(a, b, c)
    ensures Value3(a, b, c) <= 0x10FFFF && IsScalar(Value3(a, b, c)) && Encode8(Value3(a, b, c)) == [a, b, c]
  {
    hide Value3, Form3, Tail, Lead2, Lead3, Lead4;
    Back3(a, b, c);
  }

  lemma Encoded4(a: Byte, b: Byte, c: Byte, d: Byte)
    requires Form4(a, b, c, d)
    ensures Value4(a, b, c, d) <= 0x10FFFF && IsScalar(Value4(a, b, c, d)) && Encode8(Value4(a, b, c, d)) == [a, b, c, d]
  {
    hide Value4, Form4, Tail, Lead2, Lead3, Lead4;
    Back4(a, b, c, d);
  }

  /** Decoding a character gives the scalar value it encodes. */
  lemma CharEncodes(s: seq<Byte>)
    requires IsChar(s)
    ensures IsScalar(CharValue(s)) && Encode8(CharValue(s)) == s
  {
    hide Value2, Value3, Value4, Form2, Form3, Form4, Encode8, IsScalar;
    if |s| == 1 {
      Encoded1(s[0]);
    } else if |s| == 2 {
      Encoded2(s[0], s[1]);
    } else if |s| == 3 {
      Encoded3(s[0], s[1], s[2]);
    } else {
      Encoded4(s[0], s[1], s[2], s[3]);
    }
  }

  lemma OneByte(b: Byte)
    requires b <= 0x7F
    ensures (b as bv32) < 0x80 && (b as bv32) as bv8 == b
  {
  }

  /** Every scalar value has a character and decoding it gives the value back. */
  lemma EncodesChar(c: Code)
    requires IsScalar(c)
    ensures IsChar(Encode8(c)) && CharValue(Encode8(c)) == c
  {
    hide Value2, Value3, Value4, Form2, Form3, Form4, Tail, Lead2, Lead3, Lead4;
    if c < 0x80 {
      OneByteBack(c);
    } else if c < 0x800 {
      Char2(c);
    } else if c < 0x1_0000 {
      Char3(c);
    } else {
      Char4(c);
    }
  }

  lemma OneByteBack(c: Code)
    requires c < 0x80
    ensures c as bv8 <= 0x7F && (c as bv8) as bv32 == c
  {
  }

  // ---------- Round trips

  lemma ReadsEncoded(c: Code, rest: seq<Byte>, lossy: bool)
    requires IsScalar(c)
    ensures First(Encode8(c) + rest, lossy) == |Encode8(c)| && FirstCode(Encode8(c) + rest, lossy) == c
  {
    hide IsChar, Encode8, Trailing, CharValue;
    EncodesChar(c);
    var s := Encode8(c);
    var b := s + rest;
    CharTrailing(s);
    CharLenByLead(b);
    assert b[..|s|] == s;
  }

  /** Decoding undoes encoding, whatever follows; so the whole of an encoding is read. */
  lemma {:induction false} DecodeEncode(cs: seq<Code>, lossy: bool)
    requires forall i :: 0 <= i < |cs| ==> IsScalar(cs[i])
    ensures Decoded(All8(cs), lossy) == cs && Taken(All8(cs), lossy, |cs|) == |All8(cs)|
  {
    hide Encode8, First, FirstCode;
    if cs != [] {
      var rest := All8(cs[1..]);
      All8Cat([cs[0]], cs[1..]);
      One8(cs[0]);
      assert cs == [cs[0]] + cs[1..] && All8(cs) == Encode8(cs[0]) + rest;
      ReadsEncoded(cs[0], rest, lossy);
      assert All8(cs)[|Encode8(cs[0])|..] == rest;
      DecodeEncode(cs[1..], lossy);
    } else {
      NothingFirst(lossy);
    }
  }

  lemma NothingFirst(lossy: bool)
    ensures First([], lossy) == 0
  {
  }

  /** The grammar's UTF8-octets: characters one after the other. */
  predicate WellFormed(b: seq<Byte>) {
    b == [] || (CharLen(b) > 0 && WellFormed(b[CharLen(b)..]))
  }

  /** Encoding undoes decoding of well-formed bytes. */
  lemma {:induction false} EncodeDecode(b: seq<Byte>, lossy: bool)
    requires WellFormed(b)
    ensures All8(Decoded(b, lossy)) == b
    ensures forall i :: 0 <= i < |Decoded(b, lossy)| ==> IsScalar(Decoded(b, lossy)[i])
  {
    hide CharLen, IsChar, First, FirstCode, Encode8, IsScalar, CharValue, All8;
    if b == [] {
      NothingFirst(lossy);
      Nothing8();
    } else {
      var n := CharLen(b);
      FirstOfChar(b, lossy);
      CharEncodes(b[..n]);
      var c, cs := CharValue(b[..n]), Decoded(b[n..], lossy);
      assert Decoded(b, lossy) == [c] + cs;
      EncodeDecode(b[n..], lossy);
      All8Cat([c], cs);
      One8(c);
      assert b == b[..n] + b[n..];
    }
  }

  lemma Nothing8()
    ensures All8([]) == []
  {
  }

  lemma FirstOfChar(b: seq<Byte>, lossy: bool)
    requires CharLen(b) > 0
    ensures IsChar(b[..CharLen(b)]) && First(b, lossy) == CharLen(b)
    ensures FirstCode(b, lossy) == CharValue(b[..CharLen(b)])
  {
    hide IsChar, CharValue;
    IsFirstChar(b);
  }

  lemma IsFirstChar(b: seq<Byte>)
    requires CharLen(b) > 0
    ensures IsChar(b[..CharLen(b)])
  {
  }

  /** The well-formed byte strings are exactly the encodings of scalar values. */
  lemma {:induction false} EncodingsAreWellFormed(cs: seq<Code>)
    requires forall i :: 0 <= i < |cs| ==> IsScalar(cs[i])
    ensures WellFormed(All8(cs))
  {
    hide Encode8, CharLen;
    if cs != [] {
      var rest := All8(cs[1..]);
      All8Cat([cs[0]], cs[1..]);
      One8(cs[0]);
      assert cs == [cs[0]] + cs[1..] && All8(cs) == Encode8(cs[0]) + rest;
      CharLenEncoded(cs[0], rest);
      assert All8(cs)[|Encode8(cs[0])|..] == rest;
      EncodingsAreWellFormed(cs[1..]);
    }
  }

  lemma CharLenEncoded(c: Code, rest: seq<Byte>)
    requires IsScalar(c)
    ensures CharLen(Encode8(c) + rest) == |Encode8(c)|
  {
    hide IsChar, Encode8, Trailing;
    EncodesChar(c);
    var s := Encode8(c);
    CharTrailing(s);
    CharLenByLead(s + rest);
    assert (s + rest)[..|s|] == s;
  }

  // ---------- The maximal prefix

  /** What a reading with default flags gets through one at a time. */
  predicate IsChunk(s: seq<Byte>) {
    IsChar(s) || s == [0xA9]
  }

  function Joined(chunks: seq<seq<Byte>>): seq<Byte> {
    if chunks == [] then [] else chunks[0] + Joined(chunks[1..])
  }

  lemma FirstIsChunk(b: seq<Byte>)
    ensures First(b, false) > 0 ==> IsChunk(b[..First(b, false)])
  {
    hide IsChar;
    if CharLen(b) > 0 {
      IsFirstChar(b);
    }
  }

  /** Where a chunk begins the bytes, the reading takes exactly that chunk. */
  lemma ChunkIsFirst(s: seq<Byte>, rest: seq<Byte>)
    requires IsChunk(s)
    ensures First(s + rest, false) == |s| > 0
  {
    var b := s + rest;
    if IsChar(s) {
      CharShort(s);
      CharTrailing(s);
      CharLenByLead(b);
      assert b[..|s|] == s;
    } else {
      CharLenByLead(b);
      assert b[..1] == s;
    }
  }

  /** A character gives its code point, and a lone 0xA9 the replacement character. */
  lemma ChunkCode(s: seq<Byte>, rest: seq<Byte>)
    requires IsChunk(s)
    ensures First(s + rest, false) == |s| > 0
    ensures FirstCode(s + rest, false) == if IsChar(s) then CharValue(s) else 0xFFFD
  {
    ChunkIsFirst(s, rest);
    var b := s + rest;
    if IsChar(s) {
      CharShort(s);
      CharTrailing(s);
      CharLenByLead(b);
      assert b[..|s|] == s;
    } else {
      CharLenByLead(b);
      assert b[..1] == s;
    }
  }

  /** Reading chunks gives, chunk by chunk, the character's code point or the replacement character. */
  lemma {:induction false} ChunkCodes(chunks: seq<seq<Byte>>)
    requires forall i :: 0 <= i < |chunks| ==> IsChunk(chunks[i])
    ensures |Decoded(Joined(chunks), false)| == |chunks|
    ensures forall i :: 0 <= i < |chunks| ==>
              Decoded(Joined(chunks), false)[i] == if IsChar(chunks[i]) then CharValue(chunks[i]) else 0xFFFD
  {
    hide IsChunk, IsChar, CharValue, First, FirstCode;
    if chunks != [] {
      var s, rest := chunks[0], Joined(chunks[1..]);
      ChunkCode(s, rest);
      ChunkCodes(chunks[1..]);
      assert (s + rest)[|s|..] == rest;
      assert Decoded(s + rest, false) == [FirstCode(s + rest, false)] + Decoded(rest, false);
    }
  }

  /** The bytes begin with a character. */
  predicate BeginsChar(b: seq<Byte>) {
    exists n :: 1 <= n <= 4 && n <= |b| && IsChar(b[..n])
  }

  /** As many bytes follow the first as it announces. */
  predicate AllThere(b: seq<Byte>)
    requires b != []
  {
    b[0] < 0xC0 || (b[0] < 0xE0 && |b| >= 2) || (b[0] < 0xF0 && |b| >= 3) || (b[0] < 0xF8 && |b| >= 4)
    || (b[0] < 0xFC && |b| >= 5) || |b| >= 6
  }

  lemma BeginsIff(b: seq<Byte>)
    ensures BeginsChar(b) <==> CharLen(b) > 0
  {
    hide IsChar;
  }

  /**
    Bytes that begin no character: by default only 0xA9 is passed, when lossy also a byte as
    many bytes after which are there as it announces. Either gives one replacement character.
   */
  lemma BadByte(b: seq<Byte>, lossy: bool)
    requires b != [] && !BeginsChar(b)
    ensures
      if b[0] == 0xA9 || (lossy && AllThere(b))
      then Decoded(b, lossy) == [0xFFFD] + Decoded(b[1..], lossy) && Taken(b, lossy, 1) == 1
      else Decoded(b, lossy) == []
  {
    hide IsChar, CharValue;
    BeginsIff(b);
  }

  /** The first unit of a reading: a character where there is one, else a replacement character for one byte. */
  lemma FirstUnit(b: seq<Byte>, lossy: bool)
    requires b != []
    ensures
      var n := First(b, lossy);
      if BeginsChar(b) then n > 0 && IsChar(b[..n]) && FirstCode(b, lossy) == CharValue(b[..n])
      else if b[0] == 0xA9 || (lossy && AllThere(b)) then n == 1 && FirstCode(b, lossy) == 0xFFFD
      else n == 0
  {
    hide IsChar, CharValue;
    BeginsIff(b);
  }

  /** No sequence of chunks at the front of the bytes is longer than what the reading takes. */
  lemma {:induction false} Maximal(b: seq<Byte>, chunks: seq<seq<Byte>>)
    requires (forall i :: 0 <= i < |chunks| ==> IsChunk(chunks[i])) && Joined(chunks) <= b
    ensures |Joined(chunks)| <= Taken(b, false, |Decoded(b, false)|)
    decreases |chunks|
  {
    hide IsChunk, First, FirstCode;
    if chunks != [] {
      var s := chunks[0];
      var rest := b[|s|..];
      assert b == s + rest;
      ChunkIsFirst(s, rest);
      Maximal(rest, chunks[1..]);
    }
  }

  /** What the reading takes is a sequence of chunks. */
  lemma {:induction false} Chunks(b: seq<Byte>) returns (chunks: seq<seq<Byte>>)
    ensures forall i :: 0 <= i < |chunks| ==> IsChunk(chunks[i])
    ensures Joined(chunks) == b[..Taken(b, false, |Decoded(b, false)|)]
    ensures |Decoded(b, false)| == |chunks|
    ensures forall i :: 0 <= i < |chunks| ==>
              Decoded(b, false)[i] == if IsChar(chunks[i]) then CharValue(chunks[i]) else 0xFFFD
  {
    hide IsChar, CharValue, First, FirstCode;
    var n := First(b, false);
    if n == 0 {
      chunks := [];
    } else {
      FirstIsChunk(b);
      ChunkCode(b[..n], b[n..]);
      assert b == b[..n] + b[n..];
      var more := Chunks(b[n..]);
      chunks := [b[..n]] + more;
      assert chunks[1..] == more;
    }
  }

  // ---------- The converter

  /** `__CFIsLegalUTF8`, called with the length the first byte announces. */
  method IsLegalUTF8(s: seq<Byte>) returns (legal: bool)
    requires s != [] && |s| == Trailing(s[0]) + 1
    ensures legal <==> IsChar(s)
  {
    hide Form2, Form3, Form4, IsTail;
    if |s| > 4 {
      return false;
    }
    var i := |s| - 1;
    while i > 0
      invariant 0 <= i < |s|
      invariant forall j :: i < j < |s| ==> IsTail(s[j])
    {
      TailBits(s[i]);
      if s[i] & 0xC0 != 0x80 {
        NotAllTails(s, i);
        return false;
      }
      i := i - 1;
    }
    LegalHead(s);
    var head := s[0];
    if (head >= 0x80 && head < 0xC2) || head > 0xF4 {
      return false;
    }
    if (head == 0xE0 && s[1] < 0xA0) || (head == 0xED && s[1] > 0x9F)
       || (head == 0xF0 && s[1] < 0x90) || (head == 0xF4 && s[1] > 0x8F) {
      return false;
    }
    return true;
  }

  lemma TailBits(b: Byte)
    ensures b & 0xC0 == 0x80 <==> IsTail(b)
  {
  }

  lemma NotAllTails(s: seq<Byte>, i: nat)
    requires 0 < i < |s| && !IsTail(s[i])
    ensures !IsChar(s)
  {
  }

  /** With all tails in place, what is left of the grammar is on the first two bytes. */
  lemma LegalHead(s: seq<Byte>)
    requires s != [] && |s| == Trailing(s[0]) + 1 && |s| <= 4
    requires forall j :: 0 < j < |s| ==> IsTail(s[j])
    ensures s[0] in {0xE0, 0xED, 0xF0, 0xF4} ==> |s| > 1
    ensures IsChar(s) <==>
      && !(0x80 <= s[0] < 0xC2) && s[0] <= 0xF4
      && (s[0] == 0xE0 ==> s[1] >= 0xA0) && (s[0] == 0xED ==> s[1] <= 0x9F)
      && (s[0] == 0xF0 ==> s[1] >= 0x90) && (s[0] == 0xF4 ==> s[1] <= 0x8F)
  {
  }

  /** `offsetsFromUTF8`. */
  function Offset(extra: nat): bv32 {
    match extra
    case 1 => 0x3080
    case 2 => 0xE_2080
    case 3 => 0x3C8_2080
    case _ => 0
  }

  function Add(ch: bv32, b: Byte): bv32 { ch + b as bv32 }
  function Up6(ch: bv32): bv32 { ch << 6 }
  function Unmark(ch: bv32, extra: nat): bv32 { ch - Offset(extra) }

  lemma Sum2(a: Byte, b: Byte)
    requires Form2(a, b)
    ensures Unmark(Add(Up6(Add(0, a)), b), 1) == Value2(a, b)
  {
  }

  lemma Sum3(a: Byte, b: Byte, c: Byte)
    requires Form3(a, b, c)
    ensures Unmark(Add(Up6(Add(Up6(Add(0, a)), b)), c), 2) == Value3(a, b, c)
  {
  }

  /** The bits of the first three of four bytes. */
  function Top3(a: Byte, b: Byte, c: Byte): (v: bv32)
    ensures v < 0x8000
  {
    (((a & 0x07) as bv32) << 12) | (((b & 0x3F) as bv32) << 6) | ((c & 0x3F) as bv32)
  }

  function Marked(v: bv32): bv32 { 0xF_2080 + v }
  function AndSix(v: bv32, d: Byte): bv32 { Up6(v) | ((d & 0x3F) as bv32) }

  lemma SumTop3(a: Byte, b: Byte, c: Byte)
    requires 0xF0 <= a <= 0xF4 && IsTail(b) && IsTail(c)
    ensures Add(Up6(Add(Up6(Add(0, a)), b)), c) == Marked(Top3(a, b, c))
  {
  }

  lemma SumLast(v: bv32, d: Byte)
    requires v < 0x8000 && IsTail(d)
    ensures Unmark(Add(Up6(Marked(v)), d), 3) == AndSix(v, d)
  {
  }

  lemma Value4Parts(a: Byte, b: Byte, c: Byte, d: Byte)
    ensures AndSix(Top3(a, b, c), d) == Value4(a, b, c, d)
  {
  }

  lemma Form4Bytes(a: Byte, b: Byte, c: Byte, d: Byte)
    requires Form4(a, b, c, d)
    ensures 0xF0 <= a <= 0xF4 && IsTail(b) && IsTail(c) && IsTail(d)
  {
  }

  lemma Sum4(a: Byte, b: Byte, c: Byte, d: Byte)
    requires Form4(a, b, c, d)
    ensures Unmark(Add(Up6(Add(Up6(Add(Up6(Add(0, a)), b)), c)), d), 3) == Value4(a, b, c, d)
  {
    hide Add, Up6, Unmark, AndSix, Top3, Marked, IsTail, Form4, Value4;
    Form4Bytes(a, b, c, d);
    SumTop3(a, b, c);
    SumLast(Top3(a, b, c), d);
    Value4Parts(a, b, c, d);
  }

  /** The fall-through accumulation of a character's bytes. */
  method Accumulate(s: seq<Byte>) returns (ch: bv32)
    requires IsChar(s)
    ensures ch == CharValue(s)
  {
    hide Value2, Value3, Value4, Form2, Form3, Form4, Add, Up6, Unmark;
    CharShort(s);
    var i := 0;
    ch := 0;
    if |s| >= 4 {
      Sum4(s[0], s[1], s[2], s[3]);
      ch := Up6(Add(ch, s[i]));
      i := i + 1;
    }
    if |s| >= 3 {
      if |s| == 3 {
        Sum3(s[0], s[1], s[2]);
      }
      ch := Up6(Add(ch, s[i]));
      i := i + 1;
    }
    if |s| >= 2 {
      if |s| == 2 {
        Sum2(s[0], s[1]);
      }
      ch := Up6(Add(ch, s[i]));
      i := i + 1;
    }
    AddPlain(s[i]);
    ch := Unmark(Add(ch, s[i]), |s| - 1);
  }

  lemma AddPlain(b: Byte)
    ensures Unmark(Add(0, b), 0) == b as bv32
  {
  }

  /** One round of the loop: the bytes taken (0 to stop) and the code point they give. */
  method ReadUnit(bytes: seq<Byte>, i: nat, lossy: bool) returns (ch: Code, n: nat)
    requires i < |bytes|
    ensures n == First(bytes[i..], lossy)
    ensures n > 0 ==> ch == FirstCode(bytes[i..], lossy) && (IsScalar(ch) || ch == REPLACEMENT)
    ensures
      var rest := bytes[i..];
      if BeginsChar(rest) then 0 < n <= |rest| && IsChar(rest[..n]) && ch == CharValue(rest[..n])
      else if bytes[i] == 0xA9 || (lossy && AllThere(rest)) then n == 1 && ch == 0xFFFD
      else n == 0
  {
    hide IsChar, CharValue, Trailing, Encode8, IsScalar, BeginsChar, AllThere;
    ghost var rest := bytes[i..];
    FirstUnit(rest, lossy);
    CharLenByLead(rest);
    var extra := Trailing(bytes[i]);
    if extra >= |bytes| - i {
      NotA9(bytes[i]);
      return 0, 0;
    }
    var s := bytes[i..i + extra + 1];
    assert s == rest[..extra + 1];
    var legal := extra <= 3;
    if legal {
      legal := IsLegalUTF8(s);
    } else {
      TooLong(s);
    }
    if !legal {
      if bytes[i] == 0xA9 || lossy {
        return REPLACEMENT, 1;
      }
      return 0, 0;
    }
    CharEncodes(s);
    ch := Accumulate(s);
    n := extra + 1;
  }

  lemma NotA9(b: Byte)
    ensures b == 0xA9 ==> Trailing(b) == 0
  {
  }

  lemma TooLong(s: seq<Byte>)
    requires |s| > 4
    ensures !IsChar(s)
  {
  }

  // ---------- The loop

  /** `i` bytes have given `k` code points that take `used` units. */
  ghost predicate Reading(bytes: seq<Byte>, lossy: bool, cs: seq<Code>, i: nat, used: nat, k: nat) {
    && k <= |cs| && i <= |bytes|
    && Decoded(bytes[i..], lossy) == cs[k..]
    && i == Taken(bytes, lossy, k)
    && used == |All16(cs[..k])|
  }

  lemma {:induction false} TakenSnoc(b: seq<Byte>, lossy: bool, k: nat)
    ensures Taken(b, lossy, k + 1) == Taken(b, lossy, k) + First(b[Taken(b, lossy, k)..], lossy)
    decreases k
  {
    hide First;
    if k == 0 {
      assert b[0..] == b;
    } else {
      var n := First(b, lossy);
      TakenSnoc(b[n..], lossy, k - 1);
      assert b[n..][Taken(b[n..], lossy, k - 1)..] == b[Taken(b, lossy, k)..];
    }
  }

  lemma ReadBegin(bytes: seq<Byte>, lossy: bool)
    ensures Reading(bytes, lossy, Decoded(bytes, lossy), 0, 0, 0)
    ensures All16(Decoded(bytes, lossy)[..0]) == []
  {
    assert bytes[0..] == bytes;
  }

  lemma ReadOn(bytes: seq<Byte>, lossy: bool, cs: seq<Code>, i: nat, used: nat, k: nat)
    requires Reading(bytes, lossy, cs, i, used, k)
    ensures var n := First(bytes[i..], lossy);
      && (n == 0 <==> k == |cs|)
      && (n > 0 ==> k < |cs| && cs[k] == FirstCode(bytes[i..], lossy)
                    && Reading(bytes, lossy, cs, i + n, used + |Encode16(cs[k])|, k + 1))
  {
    hide First, FirstCode, Encode16;
    var rest := bytes[i..];
    var n := First(rest, lossy);
    TakenSnoc(bytes, lossy, k);
    if n > 0 {
      assert cs[k..][0] == FirstCode(rest, lossy) && cs[k..][1..] == Decoded(rest[n..], lossy);
      assert cs[k] == cs[k..][0] && cs[k..][1..] == cs[k + 1..];
      Snoc16(cs, k);
      assert rest[n..] == bytes[i + n..];
    }
  }

  lemma ReadStopped(bytes: seq<Byte>, lossy: bool, cs: seq<Code>, i: nat, used: nat, k: nat)
    requires Reading(bytes, lossy, cs, i, used, k) && i == |bytes|
    ensures k == |cs|
  {
    ReadOn(bytes, lossy, cs, i, used, k);
  }

  /** `__CFFromUTF8Len`: the length of the UTF-16 form. */
  method FromUTF8Len(bytes: seq<Byte>, lossy: bool) returns (len: nat)
    ensures len == |All16(Decoded(bytes, lossy))|
  {
    hide Decoded, All16, First, FirstCode, Taken;
    ghost var cs := Decoded(bytes, lossy);
    ReadBegin(bytes, lossy);
    var i := 0;
    ghost var k := 0;
    len := 0;
    while i < |bytes|
      invariant Reading(bytes, lossy, cs, i, len, k)
      decreases |bytes| - i
    {
      ReadOn(bytes, lossy, cs, i, len, k);
      var ch, n := ReadUnit(bytes, i, lossy);
      if n == 0 {
        break;
      }
      i, k := i + n, k + 1;
      len := len + if ch <= 0xFFFF then 1 else 2;
    }
    if i == |bytes| {
      ReadStopped(bytes, lossy, cs, i, len, k);
    }
    assert cs[..k] == cs;
  }

  /** The UTF-16 form of the first `k` code points fits in `max` units; `max == 0` only measures. */
  ghost predicate Fits16(cs: seq<Code>, k: nat, max: nat) {
    k <= |cs| && (max > 0 ==> |All16(cs[..k])| <= max)
  }

  /** One unit of room is left and the next code point needs two. */
  ghost predicate Torn(cs: seq<Code>, k: nat, max: nat) {
    k < |cs| && max > 0 && |All16(cs[..k])| + 1 == max && cs[k] > 0xFFFF
  }

  /**
    `__CFFromUTF8` with neither decomposition nor lenience: as many code points as fit are
    written. The bytes reported are exactly theirs, except that a code point that needs two
    units where one is left has its bytes reported too.
   */
  method FromUTF8(bytes: seq<Byte>, lossy: bool, out: array<Unit>, max: nat)
    returns (consumed: nat, used: nat, ghost k: nat)
    requires max <= out.Length
    modifies out
    ensures var cs := Decoded(bytes, lossy); Fits16(cs, k, max) && (k < |cs| ==> !Fits16(cs, k + 1, max))
    ensures consumed == Taken(bytes, lossy, if Torn(Decoded(bytes, lossy), k, max) then k + 1 else k)
    ensures used == |All16(Decoded(bytes, lossy)[..k])|
    ensures max > 0 ==> used <= max && out[..used] == All16(Decoded(bytes, lossy)[..k])
    ensures forall i :: 0 <= i < out.Length && (max == 0 || used <= i) ==> out[i] == old(out[i])
  {
    hide Decoded, All16, First, FirstCode, Taken, Encode16, Torn, Fits16;
    ghost var cs := Decoded(bytes, lossy);
    ReadBegin(bytes, lossy);
    consumed, used, k := 0, 0, 0;
    while consumed < |bytes| && (max == 0 || used < max)
      invariant Reading(bytes, lossy, cs, consumed, used, k)
      invariant max > 0 ==> used <= max && out[..used] == All16(cs[..k])
      invariant forall i :: 0 <= i < out.Length && (max == 0 || used <= i) ==> out[i] == old(out[i])
      decreases |bytes| - consumed
    {
      ReadOn(bytes, lossy, cs, consumed, used, k);
      var ch, n := ReadUnit(bytes, consumed, lossy);
      if n == 0 {
        break;
      }
      Snoc16(cs, k);
      ghost var before := out[..];
      var m := Emit16(ch, out, used, max);
      if m == 0 {
        TornHere(bytes, lossy, cs, consumed, used, k, max);
        consumed := consumed + n;
        return;
      }
      assert max > 0 ==> out[..used + m] == before[..used] + Encode16(ch);
      used, consumed, k := used + m, consumed + n, k + 1;
    }
    NotTorn(bytes, lossy, cs, consumed, used, k, max);
  }

  /** Writes or, with `max == 0`, only measures one code point; 0 units if it does not fit. */
  method Emit16(ch: Code, out: array<Unit>, at: nat, max: nat) returns (m: nat)
    requires max <= out.Length && (max > 0 ==> at < max)
    modifies out
    ensures m == if max > 0 && max - at < |Encode16(ch)| then 0 else |Encode16(ch)|
    ensures max > 0 ==> forall i :: 0 <= i < m ==> out[at + i] == Encode16(ch)[i]
    ensures forall i :: 0 <= i < out.Length && (max == 0 || !(at <= i < at + m)) ==> out[i] == old(out[i])
  {
    hide High, Low;
    if ch <= 0xFFFF {
      if max > 0 {
        out[at] := ch as bv16;
      }
      return 1;
    }
    if max > 0 {
      if at + 2 > max {
        return 0;
      }
      out[at], out[at + 1] := High(ch), Low(ch);
    }
    return 2;
  }

  lemma TornHere(bytes: seq<Byte>, lossy: bool, cs: seq<Code>, i: nat, used: nat, k: nat, max: nat)
    requires Reading(bytes, lossy, cs, i, used, k) && k < |cs| && 0 < max && used < max < used + |Encode16(cs[k])|
    ensures Torn(cs, k, max) && Fits16(cs, k, max) && !Fits16(cs, k + 1, max)
    ensures Taken(bytes, lossy, k + 1) == i + First(bytes[i..], lossy)
  {
    Snoc16(cs, k);
    TakenSnoc(bytes, lossy, k);
  }

  lemma NotTorn(bytes: seq<Byte>, lossy: bool, cs: seq<Code>, i: nat, used: nat, k: nat, max: nat)
    requires Reading(bytes, lossy, cs, i, used, k) && (max > 0 ==> used <= max)
    requires i == |bytes| || First(bytes[i..], lossy) == 0 || (max > 0 && used == max)
    ensures !Torn(cs, k, max) && Fits16(cs, k, max) && (k < |cs| ==> !Fits16(cs, k + 1, max))
  {
    ReadOn(bytes, lossy, cs, i, used, k);
    if k < |cs| {
      Snoc16(cs, k);
    }
  }

  // ---------- The two converters together

  /** Everything fits when all of it does. */
  lemma PrefixFits(cs: seq<Code>, k: nat, max: nat)
    requires k <= |cs| && |All8(cs)| <= max
    ensures Fits(cs, k, max)
  {
    hide All8;
    All8Cat(cs[..k], cs[k..]);
    assert cs == cs[..k] + cs[k..];
  }

  lemma PrefixFits16(cs: seq<Code>, k: nat, max: nat)
    requires k <= |cs| && |All16(cs)| <= max
    ensures Fits16(cs, k, max)
  {
    hide All16;
    All16Cat(cs[..k], cs[k..]);
    assert cs == cs[..k] + cs[k..];
  }

  /** Measures, allocates and encodes; with ample space everything but what is cut off by the 32-bit room. */
  method Encode(chars: seq<Unit>) returns (bytes: seq<Byte>, ghost k: nat)
    ensures k <= |Points(chars, true)| && bytes == All8(Points(chars, true)[..k])
    ensures var cs := Points(chars, true); k == |cs| <==> NoCuts(cs, |All8(cs)|)
    ensures var cs := Points(chars, true); |All8(cs)| < TWO32 ==> k == |cs|
  {
    hide Points, All8, All16, Fits, RunOf, NoCuts, Longest;
    ghost var cs := Points(chars, true);
    var nothing := new Byte[0];
    var _, len, m := ToUTF8(true, chars, nothing, 0);
    AllFits(cs, m, 0);
    assert cs[..m] == cs;
    var out := new Byte[len];
    if len > 0 {
      var _, used, j := ToUTF8(true, chars, out, len);
      AllFits(cs, j, len);
      return out[..used], j;
    }
    LongestRun(cs, m, 0);
    return [], m;
  }

  /** When everything fits, the longest run is everything. */
  lemma AllFits(cs: seq<Code>, k: nat, max: nat)
    requires RunOf(cs, k, max) && (max > 0 ==> |All8(cs)| <= max)
    ensures k <= |cs| && (k == |cs| <==> Longest(cs, k, max))
  {
    hide All8;
    if k < |cs| {
      if max > 0 {
        PrefixFits(cs, k + 1, max);
      }
      assert Fits(cs, k + 1, max);
    }
  }

  /** Measures, allocates and decodes. */
  method Decode(bytes: seq<Byte>, lossy: bool) returns (chars: seq<Unit>)
    ensures chars == All16(Decoded(bytes, lossy))
  {
    hide Decoded, All16, Taken, Fits16;
    ghost var cs := Decoded(bytes, lossy);
    var len := FromUTF8Len(bytes, lossy);
    var out := new Unit[len];
    if len > 0 {
      var _, used, k := FromUTF8(bytes, lossy, out, len);
      Bounded16(cs, k, len);
      PrefixFits16(cs, if k < |cs| then k + 1 else k, len);
      assert cs[..k] == cs;
    }
    chars := out[..];
  }

  lemma Bounded16(cs: seq<Code>, k: nat, max: nat)
    requires Fits16(cs, k, max)
    ensures k <= |cs|
  {
  }

  /** Text without unpaired surrogates survives a trip through UTF-8 exactly when nothing is cut. */
  method EncodeThenDecode(chars: seq<Unit>, lossy: bool) returns (back: seq<Unit>)
    requires Paired(chars)
    ensures var cs := Points(chars, true); back == chars <==> NoCuts(cs, |All8(cs)|)
    ensures |All8(Points(chars, true))| < TWO32 ==> back == chars
  {
    hide Points, Decoded, All8, All16, Taken, Paired, NoCuts;
    PairedPoints(chars);
    ghost var cs := Points(chars, true);
    var bytes, k := Encode(chars);
    DecodeEncode(cs[..k], lossy);
    Shorter16(cs, k);
    back := Decode(bytes, lossy);
  }

  /** Well-formed bytes survive a trip through UTF-16 exactly when nothing is cut. */
  method DecodeThenEncode(bytes: seq<Byte>, lossy: bool) returns (back: seq<Byte>)
    requires WellFormed(bytes)
    ensures back == bytes <==> NoCuts(Decoded(bytes, lossy), |bytes|)
    ensures |bytes| < TWO32 ==> back == bytes
  {
    hide Points, Decoded, All8, All16, Taken, Paired, WellFormed, NoCuts;
    EncodeDecode(bytes, lossy);
    ghost var cs := Decoded(bytes, lossy);
    PointsOfScalars(cs);
    var chars := Decode(bytes, lossy);
    ghost var k;
    back, k := Encode(chars);
    Shorter8(cs, k);
  }

  lemma Shorter8(cs: seq<Code>, k: nat)
    requires k <= |cs|
    ensures All8(cs[..k]) == All8(cs) <==> k == |cs|
  {
    hide Encode8;
    if k == |cs| {
      assert cs[..k] == cs;
    } else {
      All8Cat(cs[..k], cs[k..]);
      assert cs == cs[..k] + cs[k..];
    }
  }

  lemma Shorter16(cs: seq<Code>, k: nat)
    requires k <= |cs|
    ensures All16(cs[..k]) == All16(cs) <==> k == |cs|
  {
    hide Encode16;
    if k == |cs| {
      assert cs[..k] == cs;
    } else {
      All16Cat(cs[..k], cs[k..]);
      assert cs == cs[..k] + cs[k..];
    }
  }

  /** Bytes made of characters and lone 0xA9 bytes, decoded with default flags. */
  method DecodeChunks(chunks: seq<seq<Byte>>) returns (chars: seq<Unit>)
    requires forall i :: 0 <= i < |chunks| ==> IsChunk(chunks[i])
    ensures chars == All16(seq(|chunks|, i requires 0 <= i < |chunks| =>
                                 if IsChar(chunks[i]) then CharValue(chunks[i]) else 0xFFFD))
  {
    hide IsChar, CharValue, Decoded, All16;
    ChunkCodes(chunks);
    ghost var cs := seq(|chunks|, i requires 0 <= i < |chunks| => if IsChar(chunks[i]) then CharValue(chunks[i]) else 0xFFFD);
    assert Decoded(Joined(chunks), false) == cs;
    chars := Decode(Joined(chunks), false);
  }

  /** A lone 0xA9 is written as U+FFFD. */
  method LoneCopyright() returns (consumed: nat, used: nat, unit: Unit)
    ensures consumed == 1 && used == 1 && unit == 0xFFFD
  {
    hide All16, Decoded, Taken, Fits16;
    consumed, used, unit := DecodeOne([0xA9], false);
  }

  /** A stray tail byte is written as U+FFFD when the conversion may be lossy. */
  method LossyTail() returns (consumed: nat, used: nat, unit: Unit)
    ensures consumed == 1 && used == 1 && unit == 0xFFFD
  {
    hide All16, Decoded, Taken, Fits16;
    consumed, used, unit := DecodeOne([0x80], true);
  }

  /** One byte that begins no character, into room for one unit. */
  method DecodeOne(bytes: seq<Byte>, lossy: bool) returns (consumed: nat, used: nat, unit: Unit)
    requires |bytes| == 1 && 0x80 <= bytes[0] < 0xC0 && (bytes[0] == 0xA9 || lossy)
    ensures consumed == 1 && used == 1 && unit == 0xFFFD
  {
    hide All16, Taken, First, FirstCode, Fits16;
    OneBad(bytes);
    BadByte(bytes, lossy);
    assert bytes[1..] == [] && Decoded(bytes[1..], lossy) == [] by { Nothing(lossy); }
    var out := new Unit[1];
    ghost var k;
    consumed, used, k := FromUTF8(bytes, lossy, out, 1);
    FitsOne(Decoded(bytes, lossy), k);
    unit := out[0];
  }

  lemma Nothing(lossy: bool)
    ensures Decoded([], lossy) == []
  {
  }

  lemma OneBad(b: seq<Byte>)
    requires |b| == 1 && b[0] >= 0x80
    ensures !BeginsChar(b)
  {
    assert b[..1] == b;
  }

  lemma FitsOne(cs: seq<Code>, k: nat)
    requires cs == [0xFFFD] && Fits16(cs, k, 1) && (k < |cs| ==> !Fits16(cs, k + 1, 1))
    ensures k == 1 && All16(cs[..k]) == [0xFFFD] && !Torn(cs, k, 1)
  {
    assert cs[..1] == cs && cs[..0] == [];
    assert All16(cs) == Encode16(0xFFFD) by { One16(0xFFFD); }
  }

  /** Four bytes for one code point, and room for one unit: nothing is written, four bytes are reported. */
  method TornPair() returns (consumed: nat, used: nat)
    ensures consumed == 4 && used == 0
  {
    hide All16;
    var bytes: seq<Byte> := [0xF0, 0x90, 0x80, 0x80];
    var out := new Unit[1];
    ghost var k;
    OneLongChar(bytes);
    consumed, used, k := FromUTF8(bytes, false, out, 1);
    TornAtStart(Decoded(bytes, false), k);
  }

  lemma OneLongChar(bytes: seq<Byte>)
    requires bytes == [0xF0, 0x90, 0x80, 0x80]
    ensures Decoded(bytes, false) == [0x1_0000] && Taken(bytes, false, 1) == 4
  {
    assert Form4(0xF0, 0x90, 0x80, 0x80) && Value4(0xF0, 0x90, 0x80, 0x80) == 0x1_0000;
    assert bytes[..4] == bytes && IsChar(bytes) && CharValue(bytes) == 0x1_0000;
    CharLenByLead(bytes);
    FirstOfChar(bytes, false);
    assert bytes[4..] == [];
  }

  lemma TornAtStart(cs: seq<Code>, k: nat)
    requires cs == [0x1_0000] && Fits16(cs, k, 1)
    ensures k == 0 && Torn(cs, k, 1) && |All16(cs[..k])| == 0
  {
    One16(0x1_0000);
    assert cs[..0] == [] && cs[..1] == cs;
  }

  /** Reading the UTF-16 form of scalar values gives them back. */
  lemma {:induction false} PointsOfScalars(cs: seq<Code>)
    requires forall i :: 0 <= i < |cs| ==> IsScalar(cs[i])
    ensures Points(All16(cs), true) == cs && Paired(All16(cs))
  {
    hide Encode16;
    if cs != [] {
      var rest := All16(cs[1..]);
      All16Cat([cs[0]], cs[1..]);
      One16(cs[0]);
      assert cs == [cs[0]] + cs[1..];
      PointsOfScalars(cs[1..]);
      FirstPoint(cs[0], rest);
    }
  }

  lemma FirstPoint(c: Code, rest: seq<Unit>)
    requires IsScalar(c)
    ensures Points(Encode16(c) + rest, true) == [c] + Points(rest, true)
    ensures Paired(rest) ==> Paired(Encode16(c) + rest)
  {
    hide High, Low, Join, IsHigh, IsLow;
    var s := Encode16(c) + rest;
    if c < 0x1_0000 {
      PlainScalar(c);
      assert s[1..] == rest && s[0] == c as bv16;
    } else {
      JoinSplit(c);
      assert s[2..] == rest && s[0] == High(c) && s[1] == Low(c);
    }
  }

  lemma PlainScalar(c: Code)
    requires IsScalar(c) && c < 0x1_0000
    ensures !IsHigh(c as bv16) && !IsLow(c as bv16) && (c as bv16) as bv32 == c
  {
  }
}
