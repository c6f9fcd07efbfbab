/** Code points and their encodings: section 3 of RFC 3629 and section 2 of RFC 2781. */
module Unicode {
  type Byte = bv8
  type Unit = bv16
  type Code = c: bv32 | c <= 0x10FFFF

  predicate IsHigh(u: Unit) { 0xD800 <= u <= 0xDBFF }
  predicate IsLow(u: Unit) { 0xDC00 <= u <= 0xDFFF }
  predicate IsScalar(c: Code) { !(0xD800 <= c <= 0xDFFF) }

  // ---------- UTF-16

  function Join(high: Unit, low: Unit): (c: Code)
    requires IsHigh(high) && IsLow(low)
    ensures c >= 0x1_0000
  {
    (((high - 0xD800) as bv32) << 10) + ((low - 0xDC00) as bv32) + 0x1_0000
  }

  function High(c: Code): (u: Unit)
    requires c >= 0x1_0000
    ensures IsHigh(u)
  {
    ((c - 0x1_0000) >> 10) as bv16 + 0xD800
  }

  function Low(c: Code): (u: Unit)
    requires c >= 0x1_0000
    ensures IsLow(u)
  {
    ((c - 0x1_0000) & 0x3FF) as bv16 + 0xDC00
  }

  lemma JoinSplit(c: Code)
    requires c >= 0x1_0000
    ensures Join(High(c), Low(c)) == c
  {
  }

  lemma SplitJoin(high: Unit, low: Unit)
    requires IsHigh(high) && IsLow(low)
    ensures High(Join(high, low)) == high && Low(Join(high, low)) == low
  {
  }

  function Encode16(c: Code): (s: seq<Unit>)
    ensures |s| == if c < 0x1_0000 then 1 else 2
  {
    if c < 0x1_0000 then [c as bv16] else [High(c), Low(c)]
  }

  function All16(cs: seq<Code>): (s: seq<Unit>) {
    if cs == [] then [] else All16(cs[..|cs| - 1]) + Encode16(cs[|cs| - 1])
  }

  // ---------- UTF-8

  /** The table of section 3 of RFC 3629. */
  function Encode8(c: Code): (s: seq<Byte>)
    ensures 1 <= |s| <= 4
  {
    if c < 0x80 then [c as bv8]
    else if c < 0x800 then [Lead2(c), Tail(c)]
    else if c < 0x1_0000 then [Lead3(c), Tail(c >> 6), Tail(c)]
    else [Lead4(c), Tail(c >> 12), Tail(c >> 6), Tail(c)]
  }

  function Tail(c: bv32): Byte { 0x80 | ((c & 0x3F) as bv8) }
  function Lead2(c: Code): Byte { 0xC0 | (((c >> 6) & 0x1F) as bv8) }
  function Lead3(c: Code): Byte { 0xE0 | (((c >> 12) & 0x0F) as bv8) }
  function Lead4(c: Code): Byte { 0xF0 | (((c >> 18) & 0x07) as bv8) }

  function All8(cs: seq<Code>): (s: seq<Byte>) {
    if cs == [] then [] else All8(cs[..|cs| - 1]) + Encode8(cs[|cs| - 1])
  }

  // ---------- The grammar of section 4 of RFC 3629

  predicate IsTail(b: Byte) { 0x80 <= b <= 0xBF }

  predicate Form2(a: Byte, b: Byte) { 0xC2 <= a <= 0xDF && IsTail(b) }

  predicate Form3(a: Byte, b: Byte, c: Byte) {
    || (a == 0xE0 && 0xA0 <= b <= 0xBF && IsTail(c))
    || (0xE1 <= a <= 0xEC && IsTail(b) && IsTail(c))
    || (a == 0xED && 0x80 <= b <= 0x9F && IsTail(c))
    || (0xEE <= a <= 0xEF && IsTail(b) && IsTail(c))
  }

  predicate Form4(a: Byte, b: Byte, c: Byte, d: Byte) {
    || (a == 0xF0 && 0x90 <= b <= 0xBF && IsTail(c) && IsTail(d))
    || (0xF1 <= a <= 0xF3 && IsTail(b) && IsTail(c) && IsTail(d))
    || (a == 0xF4 && 0x80 <= b <= 0x8F && IsTail(c) && IsTail(d))
  }

  /** The bytes are one UTF8-char of the grammar. */
  predicate IsChar(s: seq<Byte>) {
    match |s|
    case 1 => s[0] <= 0x7F
    case 2 => Form2(s[0], s[1])
    case 3 => Form3(s[0], s[1], s[2])
    case 4 => Form4(s[0], s[1], s[2], s[3])
    case _ => false
  }

  /** Values of lead and tail bytes put together as section 3 of RFC 3629 says. */
  function Value2(a: Byte, b: Byte): bv32 { (((a & 0x1F) as bv32) << 6) | ((b & 0x3F) as bv32) }
  function Value3(a: Byte, b: Byte, c: Byte): bv32 {
    (((a & 0x0F) as bv32) << 12) | (((b & 0x3F) as bv32) << 6) | ((c & 0x3F) as bv32)
  }
  function Value4(a: Byte, b: Byte, c: Byte, d: Byte): bv32 {
    (((a & 0x07) as bv32) << 18) | (((b & 0x3F) as bv32) << 12) | (((c & 0x3F) as bv32) << 6) | ((d & 0x3F) as bv32)
  }

  lemma Char2(c: Code)
    requires 0x80 <= c < 0x800
    ensures Form2(Lead2(c), Tail(c)) && Value2(Lead2(c), Tail(c)) == c
  {
  }

  lemma Char3(c: Code)
    requires 0x800 <= c < 0x1_0000 && IsScalar(c)
    ensures Form3(Lead3(c), Tail(c >> 6), Tail(c)) && Value3(Lead3(c), Tail(c >> 6), Tail(c)) == c
  {
  }

  lemma Char4(c: Code)
    requires 0x1_0000 <= c
    ensures Form4(Lead4(c), Tail(c >> 12), Tail(c >> 6), Tail(c))
    ensures Value4(Lead4(c), Tail(c >> 12), Tail(c >> 6), Tail(c)) == c
  {
  }

  lemma Back2(a: Byte, b: Byte)
    requires Form2(a, b)
    ensures 0x80 <= Value2(a, b) < 0x800 && Lead2(Value2(a, b)) == a && Tail(Value2(a, b)) == b
  {
  }

  lemma Back3(a: Byte, b: Byte, c: Byte)
    requires Form3(a, b, c)
    ensures var v := Value3(a, b, c);
            0x800 <= v < 0x1_0000 && !(0xD800 <= v <= 0xDFFF) && Lead3(v) == a && Tail(v >> 6) == b && Tail(v) == c
  {
  }

  lemma Back4(a: Byte, b: Byte, c: Byte, d: Byte)
    requires Form4(a, b, c, d)
    ensures var v := Value4(a, b, c, d);
            0x1_0000 <= v <= 0x10FFFF && Lead4(v) == a && Tail(v >> 12) == b && Tail(v >> 6) == c && Tail(v) == d
  {
  }

  // ---------- The same as sums

  /** A pair of surrogates stands for 2^10 times its high ten bits and its low ten bits, above U+FFFF. */
  lemma JoinSum(high: Unit, low: Unit)
    requires IsHigh(high) && IsLow(low)
    ensures Join(high, low) == 0x1_0000 + 0x400 * ((high - 0xD800) as bv32) + (low - 0xDC00) as bv32
  {
  }

  /** Lead and tail bytes count in powers of 64. */
  lemma ValueSums(a: Byte, b: Byte, c: Byte, d: Byte)
    ensures Form2(a, b) ==> Value2(a, b) == 0x40 * ((a - 0xC0) as bv32) + (b - 0x80) as bv32
    ensures Form3(a, b, c) ==>
              Value3(a, b, c) == 0x1000 * ((a - 0xE0) as bv32) + 0x40 * ((b - 0x80) as bv32) + (c - 0x80) as bv32
    ensures Form4(a, b, c, d) ==>
              Value4(a, b, c, d) == 0x4_0000 * ((a - 0xF0) as bv32) + 0x1000 * ((b - 0x80) as bv32)
                                    + 0x40 * ((c - 0x80) as bv32) + (d - 0x80) as bv32
  {
  }

  /** Examples of section 7 of RFC 3629 and section 5 of RFC 2781. */
  lemma Examples()
    ensures Encode8(0x41) == [0x41] && Encode8(0x391) == [0xCE, 0x91] && Encode8(0x2262) == [0xE2, 0x89, 0xA2]
    ensures Encode8(0x2_33B4) == [0xF0, 0xA3, 0x8E, 0xB4]
    ensures Encode16(0x12345) == [0xD808, 0xDF45] && Encode16(0x41) == [0x41]
  {
  }
}
