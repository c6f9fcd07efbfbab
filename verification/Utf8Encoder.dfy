/** UTF-16 to UTF-8: `__CFToUTF8` and its length function. */
module Utf8Encoder {
  import opened Machine
  import opened Unicode

  // ---------- The code points of a UTF-16 string

  predicate PairAt(s: seq<Unit>) {
    |s| >= 2 && IsHigh(s[0]) && IsLow(s[1])
  }

  /** Code points in order; an unpaired surrogate stops a strict reading and stands for itself otherwise. */
  function Points(s: seq<Unit>, strict: bool): seq<Code> {
    if s == [] then []
    else if PairAt(s) then [Join(s[0], s[1])] + Points(s[2..], strict)
    else if strict && (IsHigh(s[0]) || IsLow(s[0])) then []
    else [s[0] as bv32] + Points(s[1..], strict)
  }

  /** How many units the first code point takes; 0 if a strict reading stops here. */
  function Step(s: seq<Unit>, strict: bool): nat {
    if s == [] then 0 else if PairAt(s) then 2
    else if strict && (IsHigh(s[0]) || IsLow(s[0])) then 0 else 1
  }

  lemma PointsStep(s: seq<Unit>, strict: bool)
    ensures Step(s, strict) == 0 <==> Points(s, strict) == []
    ensures Step(s, strict) <= |s|
    ensures Step(s, strict) > 0 ==> var cs := Points(s, strict);
              && Points(s[Step(s, strict)..], strict) == cs[1..]
              && s[..Step(s, strict)] == Encode16(cs[0])
              && cs[0] == if Step(s, strict) == 2 then Join(s[0], s[1]) else s[0] as bv32
  {
    if PairAt(s) {
      SplitJoin(s[0], s[1]);
    }
  }

  /** The string has no unpaired surrogate. */
  predicate Paired(s: seq<Unit>) {
    if s == [] then true
    else if PairAt(s) then Paired(s[2..])
    else !IsHigh(s[0]) && !IsLow(s[0]) && Paired(s[1..])
  }

  // ---------- Facts about encoded sequences

  lemma {:induction false} All8Cat(a: seq<Code>, b: seq<Code>)
    ensures All8(a + b) == All8(a) + All8(b)
  {
    hide Encode8;
    if b == [] {
      assert a + b == a;
    } else {
      var n := |b| - 1;
      assert (a + b)[..|a| + n] == a + b[..n];
      All8Cat(a, b[..n]);
    }
  }

  lemma {:induction false} All16Cat(a: seq<Code>, b: seq<Code>)
    ensures All16(a + b) == All16(a) + All16(b)
  {
    hide Encode16;
    if b == [] {
      assert a + b == a;
    } else {
      var n := |b| - 1;
      assert (a + b)[..|a| + n] == a + b[..n];
      All16Cat(a, b[..n]);
    }
  }

  lemma One8(c: Code)
    ensures All8([c]) == Encode8(c)
  {
    assert [c][..0] == [];
  }

  lemma One16(c: Code)
    ensures All16([c]) == Encode16(c)
  {
    assert [c][..0] == [];
  }

  lemma Snoc8(cs: seq<Code>, k: nat)
    requires k < |cs|
    ensures All8(cs[..k + 1]) == All8(cs[..k]) + Encode8(cs[k])
  {
    assert cs[..k + 1][..k] == cs[..k];
  }

  lemma Snoc16(cs: seq<Code>, k: nat)
    requires k < |cs|
    ensures All16(cs[..k + 1]) == All16(cs[..k]) + Encode16(cs[k])
  {
    assert cs[..k + 1][..k] == cs[..k];
  }

  /** A string without unpaired surrogates is the encoding of its code points, all scalar values. */
  lemma {:induction false} PairedPoints(s: seq<Unit>)
    requires Paired(s)
    ensures All16(Points(s, true)) == s
    ensures forall i :: 0 <= i < |Points(s, true)| ==> IsScalar(Points(s, true)[i])
  {
    if s != [] {
      PointsStep(s, true);
      var n, cs := Step(s, true), Points(s, true);
      PairedPoints(s[n..]);
      All16Cat([cs[0]], cs[1..]);
      One16(cs[0]);
      assert cs == [cs[0]] + cs[1..] && s == s[..n] + s[n..];
      assert IsScalar(cs[0]) by { if n == 1 { PlainUnit(s[0]); } }
    }
  }

  lemma PlainUnit(u: Unit)
    requires !IsHigh(u) && !IsLow(u)
    ensures IsScalar(u as bv32)
  {
  }

  // ---------- The converter

  /** `__CFUTF8BytesToWriteForCharacter`. */
  function BytesToWrite(ch: bv32): nat {
    if ch < 0x80 then 1 else if ch < 0x800 then 2 else if ch < 0x1_0000 then 3
    else if ch < 0x20_0000 then 4 else if ch < 0x400_0000 then 5 else if ch <= 0x7FFF_FFFF then 6 else 0
  }

  function LowByte(ch: bv32): Byte { (ch & 0xFF) as bv8 }

  function FirstByteMark(n: nat): bv32 {
    match n
    case 2 => 0xC0
    case 3 => 0xE0
    case 4 => 0xF0
    case _ => 0x00
  }

  function Shift(ch: bv32): bv32 { ch >> 6 }
  function TailWrite(ch: bv32): Byte { LowByte((ch | 0x80) & 0xBF) }
  function LeadWrite(ch: bv32, n: nat): Byte { LowByte(ch | FirstByteMark(n)) }

  lemma TailWrites(code: Code)
    ensures TailWrite(code) == Tail(code) && TailWrite(Shift(code)) == Tail(code >> 6)
    ensures TailWrite(Shift(Shift(code))) == Tail(code >> 12)
  {
  }

  lemma LeadWrites(code: Code)
    ensures code < 0x80 ==> LeadWrite(code, 1) == code as bv8
    ensures 0x80 <= code < 0x800 ==> LeadWrite(Shift(code), 2) == Lead2(code)
    ensures 0x800 <= code < 0x1_0000 ==> LeadWrite(Shift(Shift(code)), 3) == Lead3(code)
    ensures 0x1_0000 <= code ==> LeadWrite(Shift(Shift(Shift(code))), 4) == Lead4(code)
  {
  }

  /** The bytes the fall-through writes leave, the last byte being written first. */
  function Written(code: Code): seq<Byte> {
    match BytesToWrite(code)
    case 1 => [LeadWrite(code, 1)]
    case 2 => [LeadWrite(Shift(code), 2), TailWrite(code)]
    case 3 => [LeadWrite(Shift(Shift(code)), 3), TailWrite(Shift(code)), TailWrite(code)]
    case _ => [LeadWrite(Shift(Shift(Shift(code))), 4), TailWrite(Shift(Shift(code))), TailWrite(Shift(code)), TailWrite(code)]
  }

  /** The fall-through writes produce the encoding. */
  lemma WritesEncoding(code: Code)
    ensures BytesToWrite(code) == |Encode8(code)| && Encode8(code) == Written(code)
  {
    hide TailWrite, LeadWrite, Shift, Tail, Lead2, Lead3, Lead4;
    TailWrites(code);
    LeadWrites(code);
  }

  /** `__CFToUTF8Core`, for the code points a UTF-16 string can give. */
  method ToUTF8Core(code: Code, out: array<Byte>, at: nat, room: nat) returns (n: nat)
    requires at + room <= out.Length
    modifies out
    ensures n == if room < |Encode8(code)| then 0 else |Encode8(code)|
    ensures n > 0 ==> forall i :: 0 <= i < n ==> out[at + i] == Encode8(code)[i]
    ensures forall i :: 0 <= i < out.Length && !(at <= i < at + n) ==> out[i] == old(out[i])
  {
    hide Encode8, Shift, TailWrite, LeadWrite;
    WritesEncoding(code);
    n := BytesToWrite(code);
    if room < n {
      return 0;
    }
    var ch: bv32 := code;
    if n >= 4 {
      out[at + 3] := TailWrite(ch);
      ch := Shift(ch);
    }
    if n >= 3 {
      out[at + 2] := TailWrite(ch);
      ch := Shift(ch);
    }
    if n >= 2 {
      out[at + 1] := TailWrite(ch);
      ch := Shift(ch);
    }
    out[at] := LeadWrite(ch, n);
  }

  // ---------- The loop

  /** `consumed` units have given `k` code points whose encodings take `used` bytes. */
  ghost predicate Progress(chars: seq<Unit>, strict: bool, cs: seq<Code>, consumed: nat, used: nat, k: nat) {
    && k <= |cs| && consumed <= |chars|
    && Points(chars[consumed..], strict) == cs[k..]
    && chars[..consumed] == All16(cs[..k])
    && used == |All8(cs[..k])|
  }

  lemma Begin(chars: seq<Unit>, strict: bool)
    ensures Progress(chars, strict, Points(chars, strict), 0, 0, 0)
    ensures All8(Points(chars, strict)[..0]) == []
  {
    assert chars[0..] == chars;
  }

  lemma Advance(chars: seq<Unit>, strict: bool, cs: seq<Code>, consumed: nat, used: nat, k: nat)
    requires Progress(chars, strict, cs, consumed, used, k)
    ensures var n := Step(chars[consumed..], strict);
      && (n == 0 <==> k == |cs|)
      && (n > 0 ==> k < |cs| && Progress(chars, strict, cs, consumed + n, used + |Encode8(cs[k])|, k + 1))
  {
    hide Encode8, Encode16, Step;
    var rest := chars[consumed..];
    PointsStep(rest, strict);
    var n := Step(rest, strict);
    if n > 0 {
      Snoc8(cs, k);
      Snoc16(cs, k);
      assert rest[n..] == chars[consumed + n..] && chars[..consumed + n] == chars[..consumed] + rest[..n];
      assert cs[k..][1..] == cs[k + 1..] && cs[k..][0] == cs[k];
    }
  }

  /** The next code point, read as the loop reads it. */
  lemma NextPoint(chars: seq<Unit>, strict: bool, cs: seq<Code>, consumed: nat, used: nat, k: nat)
    requires Progress(chars, strict, cs, consumed, used, k) && consumed < |chars|
    ensures Step(chars[consumed..], strict) == StepAt(chars, strict, consumed)
    ensures StepAt(chars, strict, consumed) > 0 ==> k < |cs| && cs[k] == PointAt(chars, strict, consumed)
  {
    PointsStep(chars[consumed..], strict);
  }

  predicate PairFrom(chars: seq<Unit>, i: nat)
    requires i < |chars|
  {
    IsHigh(chars[i]) && i + 1 < |chars| && IsLow(chars[i + 1])
  }

  function StepAt(chars: seq<Unit>, strict: bool, i: nat): nat
    requires i < |chars|
  {
    if PairFrom(chars, i) then 2 else if strict && (IsHigh(chars[i]) || IsLow(chars[i])) then 0 else 1
  }

  function PointAt(chars: seq<Unit>, strict: bool, i: nat): Code
    requires i < |chars|
  {
    if PairFrom(chars, i) then Join(chars[i], chars[i + 1]) else chars[i] as bv32
  }

  // The range tests of the reading loop.
  function Widen(u: Unit): Code {
    u as bv32
  }

  predicate FromHigh(ch: Code) {
    ch >= 0xD800
  }

  predicate UpToHigh(ch: Code) {
    ch <= 0xDBFF
  }

  predicate UpToLow(ch: Code) {
    ch <= 0xDFFF
  }

  predicate LowUnit(u: Unit) {
    0xDC00 <= u <= 0xDFFF
  }

  lemma Surrogates(u: Unit)
    ensures IsHigh(u) <==> FromHigh(Widen(u)) && UpToHigh(Widen(u))
    ensures IsLow(u) <==> FromHigh(Widen(u)) && !UpToHigh(Widen(u)) && UpToLow(Widen(u))
    ensures IsLow(u) <==> LowUnit(u)
  {
  }

  /** Reads one code point the way `__CFToUTF8` does; `width` is 0 at an unpaired surrogate when strict. */
  method ReadPoint(chars: seq<Unit>, strict: bool, i: nat) returns (ch: Code, width: nat)
    requires i < |chars|
    ensures width == StepAt(chars, strict, i) && (width > 0 ==> ch == PointAt(chars, strict, i))
  {
    hide Join, IsHigh, IsLow, Widen, FromHigh, UpToHigh, UpToLow, LowUnit;
    var u := chars[i];
    Surrogates(u);
    PointHere(chars, strict, i);
    ch, width := Widen(u), 1;
    if FromHigh(ch) {
      if UpToHigh(ch) {
        if i + 1 < |chars| && LowUnit(chars[i + 1]) {
          Surrogates(chars[i + 1]);
          ch := JoinPair(u, chars[i + 1]);
          width := 2;
        } else {
          NoPair(chars, i);
          if strict {
            width := 0;
          }
        }
      } else if strict && UpToLow(ch) {
        width := 0;
      }
    }
  }

  lemma PointHere(chars: seq<Unit>, strict: bool, i: nat)
    requires i < |chars|
    ensures !PairFrom(chars, i) ==> PointAt(chars, strict, i) == Widen(chars[i])
  {
  }

  lemma NoPair(chars: seq<Unit>, i: nat)
    requires i < |chars| && !(i + 1 < |chars| && LowUnit(chars[i + 1]))
    ensures !PairFrom(chars, i)
  {
  }

  /** The arithmetic on a surrogate pair. */
  method JoinPair(high: Unit, low: Unit) returns (ch: Code)
    requires IsHigh(high) && IsLow(low)
    ensures ch == Join(high, low)
  {
    ch := ((high as bv32 - 0xD800) << 10) + (low as bv32 - 0xDC00) + 0x1_0000;
  }

  /** The code point fits, but not in the room left as a 32-bit number. */
  predicate Cut(ch: Code, at: nat, max: nat) {
    max > 0 && ch >= 0x80 && at + |Encode8(ch)| <= max && (max - at) % TWO32 < |Encode8(ch)|
  }

  /** Writes or, with `max == 0`, only measures one code point; 0 bytes if it does not fit. */
  method Emit(ch: Code, out: array<Byte>, at: nat, max: nat) returns (n: nat)
    requires max <= out.Length && (max > 0 ==> at < max)
    modifies out
    ensures n == if max > 0 && (max - at < |Encode8(ch)| || Cut(ch, at, max)) then 0 else |Encode8(ch)|
    ensures max > 0 ==> forall i :: 0 <= i < n ==> out[at + i] == Encode8(ch)[i]
    ensures forall i :: 0 <= i < out.Length && (max == 0 || !(at <= i < at + n)) ==> out[i] == old(out[i])
  {
    hide Tail, Lead2, Lead3, Lead4;
    if ch < 0x80 {
      if max > 0 {
        out[at] := ch as bv8;
      }
      return 1;
    }
    if max > 0 {
      n := ToUTF8Core(ch, out, at, (max - at) % TWO32);
    } else {
      WritesEncoding(ch);
      n := BytesToWrite(ch);
    }
  }

  /** The encodings of the first `k` code points fit in `max` bytes; `max == 0` only measures. */
  ghost predicate Fits(cs: seq<Code>, k: nat, max: nat) {
    k <= |cs| && (max > 0 ==> |All8(cs[..k])| <= max)
  }

  lemma FewerFit(cs: seq<Code>, i: nat, k: nat, max: nat)
    requires Fits(cs, k, max) && i <= k
    ensures Fits(cs, i, max)
  {
    hide Encode8, All8;
    All8Cat(cs[..i], cs[i..k]);
    assert cs[..k] == cs[..i] + cs[i..k];
  }

  /** Code point `j` starts where the cut room does not hold it. */
  ghost predicate CutAt(cs: seq<Code>, j: nat, max: nat)
    requires j < |cs|
  {
    Cut(cs[j], |All8(cs[..j])|, max)
  }

  /** No code point that fits is cut. */
  ghost predicate NoCuts(cs: seq<Code>, max: nat) {
    forall j :: 0 <= j < |cs| && Fits(cs, j + 1, max) ==> !CutAt(cs, j, max)
  }

  /** The first `k` code points fit and are not cut, and the next does not fit or is cut. */
  ghost predicate RunOf(cs: seq<Code>, k: nat, max: nat) {
    && Fits(cs, k, max)
    && (forall j :: 0 <= j < k && j < |cs| ==> !CutAt(cs, j, max))
    && (k < |cs| ==> !Fits(cs, k + 1, max) || CutAt(cs, k, max))
  }

  /** The run is the longest that fits. */
  ghost predicate Longest(cs: seq<Code>, k: nat, max: nat) {
    Fits(cs, k, max) && (k < |cs| ==> !Fits(cs, k + 1, max))
  }

  /** The run is the longest that fits exactly when no code point that fits is cut. */
  lemma LongestRun(cs: seq<Code>, k: nat, max: nat)
    requires RunOf(cs, k, max)
    ensures Longest(cs, k, max) <==> NoCuts(cs, max)
    ensures max < TWO32 ==> NoCuts(cs, max)
  {
    hide Fits, CutAt;
    FitsIn(cs, k, max);
    forall j | 0 <= j < |cs| && Fits(cs, j + 1, max)
      ensures j >= k ==> Fits(cs, k + 1, max)
      ensures max < TWO32 ==> !CutAt(cs, j, max)
    {
      if j >= k {
        FewerFit(cs, k + 1, j + 1, max);
      }
      SmallLimit(cs, j, max);
    }
  }

  lemma FitsIn(cs: seq<Code>, k: nat, max: nat)
    requires Fits(cs, k, max)
    ensures k <= |cs|
  {
  }

  lemma SmallLimit(cs: seq<Code>, j: nat, max: nat)
    requires j < |cs|
    ensures max < TWO32 ==> !CutAt(cs, j, max)
  {
    hide Encode8, All8;
  }

  /**
    `__CFToUTF8`: leading code points are encoded while they fit, and exactly their units are
    reported consumed. The room is passed on in 32 bits: the run is the longest that fits
    exactly when no code point starts where the room so cut is too small for it.
   */
  method ToUTF8(strict: bool, chars: seq<Unit>, out: array<Byte>, max: nat)
    returns (consumed: nat, used: nat, ghost k: nat)
    requires max <= out.Length
    modifies out
    ensures RunOf(Points(chars, strict), k, max)
    ensures Longest(Points(chars, strict), k, max) <==> NoCuts(Points(chars, strict), max)
    ensures max < TWO32 ==> Longest(Points(chars, strict), k, max)
    ensures consumed <= |chars| && chars[..consumed] == All16(Points(chars, strict)[..k])
    ensures used == |All8(Points(chars, strict)[..k])|
    ensures max > 0 ==> used <= max && out[..used] == All8(Points(chars, strict)[..k])
    ensures forall i :: 0 <= i < out.Length && (max == 0 || used <= i) ==> out[i] == old(out[i])
  {
    hide Points, Encode8, All8, All16, Encode16, StepAt, PointAt, Step, Cut, RunOf, Longest, NoCuts;
    ghost var cs := Points(chars, strict);
    consumed, used, k := 0, 0, 0;
    Begin(chars, strict);
    while consumed < |chars| && (max == 0 || used < max)
      invariant Progress(chars, strict, cs, consumed, used, k)
      invariant max > 0 ==> used <= max && out[..used] == All8(cs[..k])
      invariant forall j :: 0 <= j < k ==> !CutAt(cs, j, max)
      invariant forall i :: 0 <= i < out.Length && (max == 0 || used <= i) ==> out[i] == old(out[i])
      decreases |chars| - consumed
    {
      NextPoint(chars, strict, cs, consumed, used, k);
      Advance(chars, strict, cs, consumed, used, k);
      var ch, width := ReadPoint(chars, strict, consumed);
      if width == 0 {
        StoppedHere(cs, used, k, max);
        LongestRun(cs, k, max);
        return;
      }
      Snoc8(cs, k);
      ghost var before := out[..];
      var n := Emit(ch, out, used, max);
      if n == 0 {
        StoppedHere(cs, used, k, max);
        LongestRun(cs, k, max);
        return;
      }
      Written8(before, out[..], used, n, ch, max);
      NotCut(ch, used, max);
      used, consumed, k := used + n, consumed + width, k + 1;
    }
    Stopped(chars, strict, cs, consumed, used, k, max);
    StoppedHere(cs, used, k, max);
    LongestRun(cs, k, max);
  }

  lemma NotCut(ch: Code, at: nat, max: nat)
    ensures max == 0 ==> !Cut(ch, at, max)
  {
  }

  lemma Written8(before: seq<Byte>, after: seq<Byte>, used: nat, n: nat, ch: Code, max: nat)
    requires |after| == |before| && n == |Encode8(ch)|
    requires max > 0 ==> used + n <= |before|
    requires max > 0 ==> forall i :: 0 <= i < n ==> after[used + i] == Encode8(ch)[i]
    requires max > 0 ==> forall i :: 0 <= i < used ==> after[i] == before[i]
    ensures max > 0 ==> after[..used + n] == before[..used] + Encode8(ch)
  {
    hide Encode8;
  }

  lemma StoppedHere(cs: seq<Code>, used: nat, k: nat, max: nat)
    requires k <= |cs| && used == |All8(cs[..k])| && (max > 0 ==> used <= max)
    requires forall j :: 0 <= j < k ==> !CutAt(cs, j, max)
    requires k < |cs| ==> max > 0 && (max - used < |Encode8(cs[k])| || CutAt(cs, k, max))
    ensures RunOf(cs, k, max)
  {
    hide Encode8, All8, CutAt;
    if k < |cs| {
      Snoc8(cs, k);
    }
  }

  lemma Stopped(chars: seq<Unit>, strict: bool, cs: seq<Code>, consumed: nat, used: nat, k: nat, max: nat)
    requires Progress(chars, strict, cs, consumed, used, k)
    requires consumed == |chars| || (max > 0 && used == max)
    ensures k < |cs| ==> max > 0 && max - used < |Encode8(cs[k])|
  {
    PointsStep(chars[consumed..], strict);
  }

  /** With room for 2^32 bytes nothing is written of a two-byte character. */
  method RoomCut() returns (consumed: nat, used: nat)
    ensures consumed == 0 && used == 0
  {
    hide All8, All16, Points, Encode8;
    var out := new Byte[TWO32];
    ghost var k;
    ghost var cs := Points([0x80], true);
    TwoBytes();
    consumed, used, k := ToUTF8(true, [0x80], out, TWO32);
    FirstCut(cs, k);
  }

  lemma TwoBytes()
    ensures Points([0x80], true) == [0x80] && |Encode8(0x80)| == 2
  {
    assert [0x80 as Unit][1..] == [];
  }

  lemma FirstCut(cs: seq<Code>, k: nat)
    requires cs != [] && cs[0] >= 0x80 && RunOf(cs, k, TWO32)
    ensures k == 0 && All8(cs[..k]) == [] && All16(cs[..k]) == []
  {
    assert cs[..0] == [] && |All8(cs[..0])| == 0;
    assert CutAt(cs, 0, TWO32);
  }

  // ---------- Measuring

  /** `__CFToUTF8Len`: the length with unpaired surrogates encoded as themselves, in 32 bits. */
  method ToUTF8Len(chars: seq<Unit>) returns (len: nat)
    ensures len == |All8(Points(chars, false))| % TWO32
  {
    hide Points, Encode8, All8, All16, Encode16, StepAt, PointAt, Step;
    ghost var cs := Points(chars, false);
    len := 0;
    var i := 0;
    ghost var k: nat, total: nat := 0, 0;
    Begin(chars, false);
    while i < |chars|
      invariant Progress(chars, false, cs, i, total, k) && len == total % TWO32
      decreases |chars| - i
    {
      NextPoint(chars, false, cs, i, total, k);
      Advance(chars, false, cs, i, total, k);
      var ch, width := ReadPoint(chars, false, i);
      SomeStep(chars, i);
      WritesEncoding(ch);
      Wrap32(total, BytesToWrite(ch));
      len, i, k, total := (len + BytesToWrite(ch)) % TWO32, i + width, k + 1, total + BytesToWrite(ch);
    }
    PointsStep(chars[i..], false);
    assert cs[..k] == cs;
  }

  lemma Wrap32(x: nat, y: nat)
    ensures (x % TWO32 + y) % TWO32 == (x + y) % TWO32
  {
    var q := x / TWO32;
    assert x + y == x % TWO32 + y + TWO32 * q;
  }

  lemma SomeStep(chars: seq<Unit>, i: nat)
    requires i < |chars|
    ensures StepAt(chars, false, i) > 0
  {
  }

  /** Before anything wraps, the strict length is the full length exactly when nothing is unpaired. */
  lemma {:induction false} TrueLengths(chars: seq<Unit>)
    ensures |All8(Points(chars, true))| <= |All8(Points(chars, false))|
    ensures |All8(Points(chars, true))| == |All8(Points(chars, false))| <==> Paired(chars)
  {
    if chars != [] {
      var n := Step(chars, false);
      PointsStep(chars, false);
      PointsStep(chars, true);
      var cs := Points(chars, false);
      All8Cat([cs[0]], cs[1..]);
      One8(cs[0]);
      assert cs == [cs[0]] + cs[1..];
      if Step(chars, true) > 0 {
        var ds := Points(chars, true);
        All8Cat([ds[0]], ds[1..]);
        assert ds == [ds[0]] + ds[1..];
        TrueLengths(chars[n..]);
      }
    }
  }

  /**
    When what the strict converter measures is what the length function reports: the bytes
    behind the first unpaired surrogate are a multiple of 2^32, and those before it fewer.
   */
  lemma LengthsAgree(chars: seq<Unit>, strict: nat, reported: nat)
    requires strict == |All8(Points(chars, true))| && reported == |All8(Points(chars, false))| % TWO32
    ensures var full := |All8(Points(chars, false))|;
      && (strict == reported <==> strict < TWO32 && (full - strict) % TWO32 == 0)
      && (full < TWO32 ==> (strict == reported <==> Paired(chars)) && strict <= reported)
      && (Paired(chars) ==> (strict == reported <==> full < TWO32))
  {
    hide All8, Points, Paired;
    TrueLengths(chars);
    SameRest(strict, |All8(Points(chars, false))|);
  }

  lemma SameRest(s: nat, l: nat)
    requires s <= l
    ensures s == l % TWO32 <==> s < TWO32 && (l - s) % TWO32 == 0
  {
    var q := l / TWO32;
    assert l == TWO32 * q + l % TWO32;
    if s < TWO32 && (l - s) % TWO32 == 0 {
      var d := (l - s) / TWO32;
      assert l == TWO32 * d + s;
    }
  }

  /** Measuring with the strict converter and with the length function. */
  method MeasureTwice(chars: seq<Unit>) returns (strict: nat, reported: nat)
    ensures strict == |All8(Points(chars, true))| && reported == |All8(Points(chars, false))| % TWO32
    ensures |All8(Points(chars, false))| < TWO32 ==> (strict == reported <==> Paired(chars)) && strict <= reported
    ensures Paired(chars) ==> (strict == reported <==> |All8(Points(chars, false))| < TWO32)
  {
    hide All8, Points, Paired, Fits, RunOf, NoCuts, Longest;
    var nothing := new Byte[0];
    ghost var k;
    var consumed;
    consumed, strict, k := ToUTF8(true, chars, nothing, 0);
    MeasuresAll(Points(chars, true), k);
    reported := ToUTF8Len(chars);
    LengthsAgree(chars, strict, reported);
  }

  lemma MeasuresAll(cs: seq<Code>, k: nat)
    requires RunOf(cs, k, 0)
    ensures cs[..k] == cs
  {
  }

  lemma {:induction false} AsciiLength(chars: seq<Unit>, strict: bool)
    requires forall i :: 0 <= i < |chars| ==> chars[i] < 0x80
    ensures |All8(Points(chars, strict))| == |chars| && Paired(chars)
  {
    if chars != [] {
      AsciiUnit(chars[0]);
      AsciiLength(chars[1..], strict);
      All8Cat([chars[0] as bv32], Points(chars[1..], strict));
      One8(chars[0] as bv32);
    }
  }

  lemma AsciiUnit(u: Unit)
    requires u < 0x80
    ensures !IsHigh(u) && !IsLow(u) && |Encode8(u as bv32)| == 1
  {
  }

  /** Four gigabytes of the letter A measure 2^32 bytes, and the length function reports none. */
  method LengthWrapped() returns (strict: nat, reported: nat)
    ensures strict == TWO32 && reported == 0
  {
    hide All8, Points, Paired;
    var chars: seq<Unit> := seq(TWO32, _ => 0x41);
    AsciiLength(chars, true);
    AsciiLength(chars, false);
    strict, reported := MeasureTwice(chars);
  }

  /** An unpaired surrogate before 2^32 - 3 letters A: both lengths are zero. */
  method LossHidden() returns (chars: seq<Unit>, strict: nat, reported: nat)
    ensures !Paired(chars) && strict == 0 && reported == 0
  {
    hide All8, Points, Paired;
    var rest: seq<Unit> := seq(TWO32 - 3, _ => 0x41);
    chars := [0xD800] + rest;
    AsciiLength(rest, false);
    LoneThen(rest);
    strict, reported := MeasureTwice(chars);
  }

  lemma LoneThen(rest: seq<Unit>)
    requires rest != [] && rest[0] == 0x41
    ensures var s: seq<Unit> := [0xD800] + rest;
      && !Paired(s) && |All8(Points(s, true))| == 0 && |All8(Points(s, false))| == 3 + |All8(Points(rest, false))|
  {
    var s: seq<Unit> := [0xD800] + rest;
    assert s[1..] == rest && !PairAt(s) && IsHigh(s[0]);
    assert Points(s, false) == [0xD800] + Points(rest, false);
    All8Cat([0xD800], Points(rest, false));
    One8(0xD800);
  }

  /** A lone high surrogate measures nothing strictly, and three bytes by the length function. */
  lemma LoneSurrogate()
    ensures |All8(Points([0xD800], true))| == 0 && |All8(Points([0xD800], false))| == 3
  {
    var s: seq<Unit> := [0xD800];
    assert s[1..] == [] && !PairAt(s) && IsHigh(s[0]);
    assert Points(s, true) == [] && Points(s, false) == [0xD800];
    One8(0xD800);
  }
}
