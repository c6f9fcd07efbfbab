/** CFBigNumber to and from decimal text and machine numbers. */
module BigNumberText {
  import opened BigNumber
  import opened Machine

  // ---------- The smallest machine number

  /** A stored number: up to 64 bits as its value, otherwise as two 64-bit words in memory order. */
  datatype Number = NoNumber | Small(bits: nat, value: int) | Words(first: nat, second: nat) {
    ghost predicate Stored() {
      match this
      case NoNumber => false
      case Small(bits, value) => bits <= 64 && InBits(bits, value)
      case Words(first, second) => first < TWO64 && second < TWO64
    }

    /** The first word is read as the signed high half, the second as the low half. */
    function Value(): int
      requires this != NoNumber
    {
      match this
      case Small(bits, value) => value
      case Words(first, second) => Wrap64(first) * TWO64 + second
    }
  }

  /** The words of a 128-bit integer in memory, the low half first. */
  function LowWord(x: int): (w: nat)
    ensures w < TWO64
  {
    x % TWO64
  }

  function HighWord(x: int): (w: nat)
    ensures w < TWO64
  {
    (x / TWO64) % TWO64
  }

  /** The halves are exchanged between writing and reading, so only equal halves keep the value. */
  lemma ExchangedHalves(x: int)
    requires InBits(128, x)
    ensures Words(LowWord(x), HighWord(x)).Value() == x <==> LowWord(x) == HighWord(x)
  {
    var high, low := x / TWO64, x % TWO64;
    assert x == high * TWO64 + low && -TWO63 <= high < TWO63;
    HighHalf(high);
    SameParts(Wrap64(low), HighWord(x), high, low);
  }

  lemma HighHalf(high: int)
    requires -TWO63 <= high < TWO63
    ensures Wrap64(high % TWO64) == high
  {
    var k := high / TWO64;
    assert high % TWO64 == high - TWO64 * k && -1 <= k <= 0;
  }

  lemma SameParts(h: int, l: int, high: int, low: int)
    requires 0 <= l < TWO64 && 0 <= low < TWO64
    ensures h * TWO64 + l == high * TWO64 + low <==> h == high && l == low
  {
  }

  ghost predicate InBits(bits: nat, x: int) {
    match bits
    case 8 => -0x80 <= x < 0x80
    case 16 => -0x8000 <= x < 0x8000
    case 32 => -TWO31 <= x < TWO31
    case 64 => -TWO63 <= x < TWO63
    case 128 => -TWO127 <= x < TWO127
    case _ => false
  }

  /** `low <= input <= high` as the limit tests of `_CFNumberCreateWithBigNum` decide it. */
  method Between(input: BigNum, min: BigNum, max: BigNum) returns (inside: bool)
    requires input.Valid() && min.Valid() && max.Valid() && min.Value() < 0 < max.Value()
    ensures inside <==> min.Value() <= input.Value() <= max.Value()
  {
    var cr := Compare(input, max);
    var crn := Compare(input, min);
    inside := (cr == -1 || cr == 0) && crn != -1;
  }

  lemma SmallDigits(d: seq<int>)
    requires |d| == 5 && Proper(d)
    ensures d[1] == 0 && d[2] == 0 && d[3] == 0 && d[4] == 0 <==> Mag(d) < LIMIT
    ensures d[1] == 0 && d[2] == 0 && d[3] == 0 && d[4] == 0 ==> Mag(d) == d[0]
    ensures d[2] == 0 && d[3] == 0 && d[4] == 0 <==> Mag(d) < LIMIT_2
    ensures d[3] == 0 && d[4] == 0 <==> Mag(d) < LIMIT_3
    ensures Mag(d) >= 0
  {
    hide Mag;
    FiveDigits(d);
    MagBounds(d);
  }

  /**
    `_CFNumberCreateWithBigNum`: up to 64 bits a number of the same value in the fewest bits
    that hold it, except that -128 and -32768 get the next size. Beyond 64 bits the halves
    are exchanged, and beyond 128 there is no number.
   */
  method NumberCreate(input: BigNum) returns (n: Number)
    requires input.Valid()
    ensures n != NoNumber <==> InBits(128, input.Value())
    ensures n != NoNumber ==> n.Stored()
    ensures n.Words? <==> InBits(128, input.Value()) && !InBits(64, input.Value())
    ensures n.Words? ==> n == Words(LowWord(input.Value()), HighWord(input.Value()))
    ensures n.Words? ==> (n.Value() == input.Value() <==> LowWord(input.Value()) == HighWord(input.Value()))
    ensures n.Small? ==> n.value == input.Value()
    ensures n.Small? && n.bits > 8 ==> !InBits(8, n.value) || n.value == -0x80
    ensures n.Small? && n.bits > 16 ==> !InBits(16, n.value) || n.value == -0x8000
    ensures n.Small? && n.bits > 32 ==> !InBits(32, n.value)
  {
    hide Mag, LowWord, HighWord, Wrap64;
    var d := input.digits;
    SmallDigits(d);
    if d[4] == 0 && d[3] == 0 && d[2] == 0 && d[1] == 0 {
      if d[0] <= 0x7F {
        return Small(8, if input.sign < 0 then -d[0] else d[0]);
      } else if d[0] <= 0x7FFF {
        return Small(16, if input.sign < 0 then -d[0] else d[0]);
      }
    }
    if d[4] == 0 && d[3] == 0 && d[2] == 0 {
      var min32, max32 := Limits32();
      var inside := Between(input, min32, max32);
      if inside {
        var num := GetInt32(input);
        return Small(32, num);
      }
    }
    if d[4] == 0 && d[3] == 0 {
      var min64, max64 := Limits64();
      var inside := Between(input, min64, max64);
      if inside {
        var num := GetInt64(input);
        return Small(64, num);
      }
    }
    var min128, max128 := Limits128();
    var inside := Between(input, min128, max128);
    if inside {
      var num := GetInt128(input);
      ExchangedHalves(num);
      return Words(LowWord(num), HighWord(num));
    }
    return NoNumber;
  }

  method Limits32() returns (min: BigNum, max: BigNum)
    ensures min.Valid() && max.Valid() && fresh(min) && fresh(max)
    ensures min.Value() == -TWO31 && max.Value() == TWO31 - 1
  {
    min := new BigNum();
    max := new BigNum();
    InitWithInt32(max, TWO31 - 1);
    InitWithInt32(min, -TWO31);
  }

  method Limits64() returns (min: BigNum, max: BigNum)
    ensures min.Valid() && max.Valid() && fresh(min) && fresh(max)
    ensures min.Value() == -TWO63 && max.Value() == TWO63 - 1
  {
    min := new BigNum();
    max := new BigNum();
    InitWithInt64(max, TWO63 - 1);
    InitWithInt64(min, -TWO63);
  }

  method Limits128() returns (min: BigNum, max: BigNum)
    ensures min.Valid() && max.Valid() && fresh(min) && fresh(max)
    ensures min.Value() == -TWO127 && max.Value() == TWO127 - 1
  {
    min := new BigNum();
    max := new BigNum();
    InitWithInt128(max, TWO127 - 1);
    InitWithInt128(min, -TWO127);
  }

  /** `_CFBigNumInitWithBytes` on a stored number. */
  method InitWithNumber(r: BigNum, n: Number)
    requires n.Stored()
    modifies r
    ensures r.Valid() && r.Value() == n.Value()
  {
    hide Mag, Wrap64;
    match n
    case Small(bits, value) =>
      if bits <= 32 {
        InitWithInt32(r, value);
      } else {
        InitWithInt64(r, value);
      }
    case Words(first, second) =>
      InitWithInt128(r, second + Wrap64(first) * TWO64);
  }

  /** A number survives storing and reading exactly when it has 64 bits or equal halves. */
  method StoreThenRead(input: BigNum) returns (r: BigNum)
    requires input.Valid() && InBits(128, input.Value())
    ensures r.Valid()
    ensures var x := input.Value(); r.Value() == x <==> InBits(64, x) || LowWord(x) == HighWord(x)
  {
    hide Mag, LowWord, HighWord, Wrap64;
    ghost var x := input.Value();
    var n := NumberCreate(input);
    r := new BigNum();
    InitWithNumber(r, n);
  }

  /** The number 2 to the 63 becomes one of value minus 2 to the 127. */
  method HalvesExchanged() returns (n: Number)
    ensures n == Words(TWO63, 0) && n.Value() == -TWO127
  {
    var input := new BigNum();
    InitWithInt128(input, TWO63);
    n := NumberCreate(input);
  }

  // ---------- Decimal digits

  predicate IsDigit(c: char) { '0' <= c <= '9' }

  predicate AllDigits(s: string) { forall i :: 0 <= i < |s| ==> IsDigit(s[i]) }

  function DigitOf(c: char): (d: nat)
    requires IsDigit(c)
    ensures d <= 9
  {
    (c - '0') as int
  }

  function CharOf(d: nat): (c: char)
    requires d <= 9
    ensures IsDigit(c) && DigitOf(c) == d
  {
    '0' + d as char
  }

  /** The number a string of decimal digits stands for. */
  function Num(s: string): nat
    requires AllDigits(s)
  {
    if s == [] then 0 else Num(s[..|s| - 1]) * 10 + DigitOf(s[|s| - 1])
  }

  function Pow10(n: nat): (r: nat)
    ensures r > 0
  {
    if n == 0 then 1 else 10 * Pow10(n - 1)
  }

  lemma {:induction false} NumJoin(a: string, b: string)
    requires AllDigits(a) && AllDigits(b)
    ensures Num(a + b) == Num(a) * Pow10(|b|) + Num(b)
  {
    if b == [] {
      assert a + b == a;
    } else {
      hide Num;
      var n := |b| - 1;
      NumJoin(a, b[..n]);
      NumLast(a + b);
      NumLast(b);
      assert (a + b)[..|a| + n] == a + b[..n];
      NumJoinStep(Num(a), Num(b[..n]), Pow10(n), DigitOf(b[n]));
    }
  }

  lemma NumLast(s: string)
    requires s != [] && AllDigits(s)
    ensures Num(s) == Num(s[..|s| - 1]) * 10 + DigitOf(s[|s| - 1])
  {
  }

  lemma NumJoinStep(x: nat, y: nat, p: nat, d: nat)
    ensures (x * p + y) * 10 + d == x * (10 * p) + (y * 10 + d)
  {
    Times10(x, p);
  }

  lemma Times10(x: nat, p: nat)
    ensures x * p * 10 == x * (10 * p)
  {
  }

  lemma NumJoin9(a: string, b: string)
    requires AllDigits(a) && AllDigits(b) && |b| == 9
    ensures Num(a + b) == Num(b) + LIMIT * Num(a)
  {
    hide Num, Pow10;
    NumJoin(a, b);
    Nine();
  }

  lemma {:induction false} NumBound(s: string)
    requires AllDigits(s)
    ensures Num(s) < Pow10(|s|)
  {
    if s != [] {
      NumBound(s[..|s| - 1]);
    }
  }

  /** A leading zero does not count. */
  lemma {:induction false} DropZeros(s: string, k: nat)
    requires AllDigits(s) && k <= |s| && forall i :: 0 <= i < k ==> s[i] == '0'
    ensures Num(s[k..]) == Num(s)
  {
    if k == 0 {
      assert s[0..] == s;
    } else {
      DropZeros(s, k - 1);
      var t := s[k - 1..];
      assert t == ['0'] + s[k..];
      NumJoin(['0'], s[k..]);
      assert ['0'][..0] == [];
      assert Num(['0']) == 0;
    }
  }

  /** `%0nu` of a number with at most `n` digits. */
  function Printed(d: nat, n: nat): (s: string)
    ensures |s| == n && AllDigits(s)
  {
    if n == 0 then [] else Printed(d / 10, n - 1) + [CharOf(d % 10)]
  }

  lemma {:induction false} PrintedNum(d: nat, n: nat)
    requires d < Pow10(n)
    ensures Num(Printed(d, n)) == d
  {
    if n > 0 {
      PrintedNum(d / 10, n - 1);
      var s := Printed(d, n);
      assert s[..n - 1] == Printed(d / 10, n - 1);
    }
  }

  lemma Nine()
    ensures Pow10(9) == LIMIT
  {
    assert Pow10(4) == 10_000;
  }

  /** `%09u`: nine digits, or ten from one billion on. */
  function Group(d: nat): (s: string)
    ensures |s| == (if d < LIMIT then 9 else 10) && AllDigits(s)
  {
    if d < LIMIT then Printed(d, 9) else Printed(d, 10)
  }

  lemma GroupNum(d: nat)
    requires d < TWO32
    ensures Num(Group(d)) == d
  {
    Nine();
    PrintedNum(d, if d < LIMIT then 9 else 10);
  }

  predicate Printable(d: seq<int>) {
    forall i :: 0 <= i < |d| ==> 0 <= d[i] < TWO32
  }

  /** The digits from one billion on, which print one character more. */
  function Wide(d: seq<int>): (e: nat)
    ensures e == 0 <==> forall i :: 0 <= i < |d| ==> d[i] < LIMIT
  {
    if d == [] then 0
    else
      assert d == [d[0]] + d[1..];
      Wide(d[1..]) + if d[0] < LIMIT then 0 else 1
  }

  /** All groups, the most significant first. */
  function Text(d: seq<int>): (s: string)
    requires Printable(d)
    ensures |s| == 9 * |d| + Wide(d) && AllDigits(s)
  {
    if d == [] then [] else Text(d[1..]) + Group(d[0])
  }

  /** A text of `m` in which `e` extra characters push the higher digits up. */
  ghost predicate Spread(text: string, m: int, e: nat) {
    && AllDigits(text) && m >= 0
    && (e == 0 ==> Num(text) == m)
    && (e > 0 ==> Num(text) < m * Pow10(e))
  }

  lemma {:induction false} TextNum(d: seq<int>)
    requires Printable(d)
    ensures Spread(Text(d), Mag(d), Wide(d))
  {
    hide Spread, Group, Text, Mag, Wide;
    TextParts(d);
    if d != [] {
      TextNum(d[1..]);
      TextNumStep(d[0], d[1..]);
    }
  }

  lemma TextParts(d: seq<int>)
    requires Printable(d)
    ensures d == [] ==> Spread(Text(d), Mag(d), Wide(d))
    ensures d != [] ==>
      && Printable(d[1..]) && 0 <= d[0] < TWO32
      && Text(d) == Text(d[1..]) + Group(d[0]) && Mag(d) == d[0] + LIMIT * Mag(d[1..])
      && Wide(d) == Wide(d[1..]) + if d[0] < LIMIT then 0 else 1
  {
  }

  lemma TextNumStep(d: int, rest: seq<int>)
    requires 0 <= d < TWO32 && Printable(rest) && Spread(Text(rest), Mag(rest), Wide(rest))
    ensures Spread(Text(rest) + Group(d), d + LIMIT * Mag(rest), Wide(rest) + if d < LIMIT then 0 else 1)
  {
    hide Num, Text, Wide, Mag, Group;
    GroupNum(d);
    NumJoin(Text(rest), Group(d));
    Nine();
    var n, m, p := Num(Text(rest)), Mag(rest), Pow10(Wide(rest));
    if d < LIMIT {
      if Wide(rest) > 0 {
        ScaleNarrow(n, m, p, d);
      }
    } else {
      assert n <= m * p;
      ScaleWide(n, m, p, d);
    }
  }

  lemma ScaleNarrow(n: nat, m: nat, p: nat, d: nat)
    requires n < m * p && p > 0
    ensures n * LIMIT + d < (d + LIMIT * m) * p
  {
    assert d <= d * p;
    assert (d + LIMIT * m) * p == d * p + LIMIT * (m * p);
  }

  lemma ScaleWide(n: nat, m: nat, p: nat, d: nat)
    requires n <= m * p && p > 0 && d > 0
    ensures n * (10 * LIMIT) + d < (d + LIMIT * m) * (10 * p)
  {
    assert d <= d * p;
    assert (d + LIMIT * m) * (10 * p) == 10 * (d * p) + 10 * LIMIT * (m * p);
  }

  /** `snprintf` into 46 bytes: the first 45 characters. */
  function Kept(d: seq<int>): (s: string)
    requires |d| == 5 && Printable(d)
    ensures |s| == 45 && AllDigits(s)
  {
    Text(d)[..45]
  }

  /** What is kept spells the number exactly when no digit is one billion or more. */
  lemma KeptNum(d: seq<int>)
    requires |d| == 5 && Printable(d)
    ensures Num(Kept(d)) == Mag(d) <==> Proper(d)
    ensures Num(Kept(d)) <= Mag(d)
  {
    hide Num, Mag, Wide, Text;
    var t := Text(d);
    TextNum(d);
    WideIs(d);
    if Wide(d) == 0 {
      assert t[..45] == t;
    } else {
      NumJoin(t[..45], t[45..]);
      assert t == t[..45] + t[45..];
      Below(Num(t[..45]), Mag(d), Pow10(Wide(d)));
    }
  }

  lemma WideIs(d: seq<int>)
    requires Printable(d)
    ensures Wide(d) == 0 <==> Proper(d)
  {
  }

  lemma Below(a: int, b: int, p: nat)
    requires a * p < b * p
    ensures a < b
  {
    assert (b - a) * p > 0;
  }

  // ---------- Printing

  /** The sign in front of the digits. */
  function Prefix(sign: int, leadingPlus: bool): string {
    if sign < 0 then "-" else if leadingPlus then "+" else ""
  }

  /** How many zeros a text begins with. */
  function Zeros(s: string): (k: nat)
    ensures k <= |s| && (forall i :: 0 <= i < k ==> s[i] == '0') && (k < |s| ==> s[k] != '0')
  {
    if s == [] || s[0] != '0' then 0
    else
      assert forall i :: 0 < i < |s| ==> s[i] == s[1..][i - 1];
      1 + Zeros(s[1..])
  }

  /** The digits without leading zeros, but at least one. */
  function Significant(s: string): (t: string)
    requires s != []
    ensures t != []
  {
    if Zeros(s) == |s| then s[|s| - 1..] else s[Zeros(s)..]
  }

  lemma SignificantNum(s: string)
    requires s != [] && AllDigits(s)
    ensures AllDigits(Significant(s)) && Num(Significant(s)) == Num(s)
    ensures |Significant(s)| > 1 ==> Significant(s)[0] != '0'
  {
    DropZeros(s, if Zeros(s) == |s| then |s| - 1 else Zeros(s));
  }

  /** Cutting off no more than leading zeros leaves the number. */
  lemma CutNum(s: string, k: nat)
    requires s != [] && AllDigits(s) && k <= |s| - |Significant(s)|
    ensures Num(s[k..]) == Num(s)
  {
    DropZeros(s, k);
  }

  lemma PadNum(k: nat, s: string)
    requires AllDigits(s)
    ensures AllDigits(Padding(k) + s) && Num(Padding(k) + s) == Num(s)
  {
    var t := Padding(k) + s;
    DropZeros(t, k);
    assert t[k..] == s;
  }

  function Padding(k: nat): (s: string)
    ensures |s| == k && AllDigits(s)
  {
    seq(k, _ => '0')
  }

  /**
    What a buffer of `room` bytes shows of the 45 digits: zero padded it is filled, and loses
    high digits if it is small; otherwise it shows the significant digits, and loses low ones.
   */
  function Shown(g: string, leadingZeros: bool, room: nat): string
    requires |g| == 45 && room > 0
  {
    if leadingZeros then
      if room <= 46 then g[46 - room..] else Padding(room - 46) + g
    else
      var t := Significant(g);
      if |t| < room then t else t[..room - 1]
  }

  /**
    `_CFBigNumToCString`: the characters before the terminating NUL. A buffer with room for
    the significant digits gets a text of the number, exactly when no digit is one billion
    or more; a smaller one gets the low digits when zero padded and the high digits otherwise.
   */
  method ToCString(vp: BigNum, leadingZeros: bool, leadingPlus: bool, buflen: nat) returns (s: string)
    requires |vp.digits| == 5 && Printable(vp.digits) && buflen > |Prefix(vp.sign, leadingPlus)|
    ensures |s| < buflen
    ensures var p := Prefix(vp.sign, leadingPlus); p <= s && AllDigits(s[|p|..])
    ensures var p := Prefix(vp.sign, leadingPlus); var g := Kept(vp.digits);
      && s[|p|..] == Shown(g, leadingZeros, buflen - |p|)
      && (|Significant(g)| < buflen - |p| ==> (Num(s[|p|..]) == Mag(vp.digits) <==> Proper(vp.digits)))
    ensures vp.sign < 0 ==> s != [] && s[0] == '-'
    ensures vp.sign >= 0 && leadingPlus ==> s != [] && s[0] == '+'
    ensures vp.sign >= 0 && !leadingPlus ==> AllDigits(s)
    ensures var t := if vp.sign < 0 || leadingPlus then s[1..] else s; var room := buflen - (|s| - |t|);
      if leadingZeros then
        |t| == room - 1 && Filled(Kept(vp.digits), t)
      else
        exists z :: Stripped(Kept(vp.digits), z) && t == Kept(vp.digits)[z..if 45 - z < room then 45 else z + room - 1]
  {
    hide Mag, Num, Kept, Significant, Shown;
    var p := Prefix(vp.sign, leadingPlus);
    var tmp := Kept(vp.digits);
    KeptNum(vp.digits);
    ShownPlaces(tmp, leadingZeros, buflen - |p|);
    ShownSpells(tmp, leadingZeros, buflen - |p|);
    var digits := ShowDigits(tmp, leadingZeros, buflen - |p|);
    s := p + digits;
  }

  /** The text ends in the digits, or in as many of the low ones as it has places, and zeros stand before. */
  predicate Filled(g: string, t: string) {
    if |t| < |g| then t == g[|g| - |t|..] else t[|t| - |g|..] == g && forall i :: 0 <= i < |t| - |g| ==> t[i] == '0'
  }

  /** `z` zeros stand in front of the first digit that counts, which is the last at the latest. */
  predicate Stripped(g: string, z: int) {
    0 <= z < |g| && (forall i :: 0 <= i < z ==> g[i] == '0') && (z + 1 < |g| ==> g[z] != '0')
  }

  /** What is shown, place by place. */
  lemma ShownPlaces(g: string, leadingZeros: bool, room: nat)
    requires |g| == 45 && room > 0
    ensures var t := Shown(g, leadingZeros, room);
      if leadingZeros then
        |t| == room - 1 && Filled(g, t)
      else
        exists z :: Stripped(g, z) && t == g[z..if 45 - z < room then 45 else z + room - 1]
  {
    if !leadingZeros {
      var z := if Zeros(g) == |g| then |g| - 1 else Zeros(g);
      assert Stripped(g, z) && Significant(g) == g[z..];
    }
  }

  /** The printed sum of two numbers of one sign is right exactly when it fits and no digit sum is one billion. */
  method PrintSum(a: BigNum, b: BigNum, leadingZeros: bool, leadingPlus: bool, buflen: nat) returns (s: string)
    requires a.Valid() && b.Valid() && a.sign == b.sign && buflen > 46
    ensures var p := Prefix(a.sign, leadingPlus);
      && p <= s && AllDigits(s[|p|..])
      && (Num(s[|p|..]) == Mag(a.digits) + Mag(b.digits)
          <==> NoneFull(a.digits, b.digits) && Mag(a.digits) + Mag(b.digits) < LIMIT_5)
  {
    hide Mag, Num, Kept, Significant, FullAt, NoneFull, Shown;
    var r := new BigNum();
    var carry := Add(r, a, b);
    assert Printable(r.digits);
    s := ToCString(r, leadingZeros, leadingPlus, buflen);
    KeptNum(r.digits);
    ghost var p := Prefix(a.sign, leadingPlus);
    ShownSpells(Kept(r.digits), leadingZeros, buflen - |p|);
    SignificantLen(Kept(r.digits));
    if r.Valid() {
      MagBounds(r.digits);
    }
  }

  /** The sum of 999999999 and 1 is not printed as one billion. */
  method SumMisprinted() returns (s: string)
    ensures AllDigits(s) && Num(s) != LIMIT
  {
    hide Mag, Num, Kept, Significant, FullAt, NoneFull, Shown;
    var a, b, r := FullDigit();
    FiveDigits(r.digits);
    s := ToCString(r, false, true, 47);
    SignificantLen(Kept(r.digits));
    s := s[1..];
  }

  lemma SignificantLen(s: string)
    requires s != []
    ensures |Significant(s)| <= |s|
  {
  }

  /** The two ways of copying the digits to the buffer. */
  method ShowDigits(tmp: string, leadingZeros: bool, room: nat) returns (digits: string)
    requires |tmp| == 45 && room > 0
    ensures digits == Shown(tmp, leadingZeros, room)
  {
    hide Significant;
    if leadingZeros {
      var tocopy := if 46 < room then 46 else room;
      digits := Padding(room - tocopy) + tmp[46 - tocopy..];
    } else {
      var t := Strip(tmp);
      digits := t[..if |t| < room then |t| else room - 1];
    }
  }

  lemma ShownSpells(g: string, leadingZeros: bool, room: nat)
    requires |g| == 45 && AllDigits(g) && room > 0
    ensures AllDigits(Shown(g, leadingZeros, room)) && |Shown(g, leadingZeros, room)| < room
    ensures |Significant(g)| < room ==> Num(Shown(g, leadingZeros, room)) == Num(g)
  {
    hide Num, Significant;
    SignificantNum(g);
    if leadingZeros {
      if room <= 46 {
        ShownNum(g, 46 - room);
      } else {
        PadNum(room - 46, g);
      }
    }
  }

  lemma ShownNum(s: string, k: nat)
    requires s != [] && AllDigits(s) && k <= |s|
    ensures AllDigits(s[k..])
    ensures k <= |s| - |Significant(s)| ==> Num(s[k..]) == Num(s)
  {
    if k <= |s| - |Significant(s)| {
      CutNum(s, k);
    }
  }

  /** Skips leading zeros and steps back if nothing is left. */
  method Strip(tmp: string) returns (t: string)
    requires tmp != []
    ensures t == Significant(tmp)
  {
    var i := 0;
    while i < |tmp| && tmp[i] == '0'
      invariant 0 <= i <= |tmp| && forall j :: 0 <= j < i ==> tmp[j] == '0'
    {
      i := i + 1;
    }
    ZerosAre(tmp, i);
    if i == |tmp| {
      i := i - 1;
    }
    t := tmp[i..];
  }

  lemma ZerosAre(s: string, i: nat)
    requires i <= |s| && (forall j :: 0 <= j < i ==> s[j] == '0') && (i < |s| ==> s[i] != '0')
    ensures Zeros(s) == i
  {
  }

  // ---------- Parsing

  /** An optional sign followed by decimal digits only. */
  predicate IsNumeral(s: string) {
    AllDigits(Unsigned(s))
  }

  function Unsigned(s: string): string {
    if s != [] && (s[0] == '-' || s[0] == '+') then s[1..] else s
  }

  predicate IsSpace(c: char) {
    c == ' ' || 9 as char <= c <= 13 as char
  }

  function SkipSpace(s: string): string {
    if s != [] && IsSpace(s[0]) then SkipSpace(s[1..]) else s
  }

  /** The decimal digits a text begins with. */
  function DigitRun(s: string): (t: string)
    ensures t <= s && AllDigits(t) && (|t| < |s| ==> !IsDigit(s[|t|]))
  {
    if s != [] && IsDigit(s[0]) then [s[0]] + DigitRun(s[1..]) else []
  }

  /** A number kept within the 64-bit limits and then stored in 32 bits. */
  function Saturated(n: int): (r: nat)
    ensures r < TWO32 && (0 <= n ==> (r == n <==> n < TWO32))
  {
    (if n < -TWO63 then -TWO63 else if n < TWO63 then n else TWO63 - 1) % TWO32
  }

  /** `atol` stored in 32 bits: spaces, a sign, and digits up to the first other character. */
  function Atol(s: string): (r: nat)
    ensures r < TWO32
  {
    var t := SkipSpace(s);
    var n: int := Num(DigitRun(Unsigned(t)));
    Saturated(if t != [] && t[0] == '-' then -n else n)
  }

  lemma {:induction false} AllRun(s: string)
    requires AllDigits(s)
    ensures DigitRun(s) == s
  {
    if s != [] {
      AllRun(s[1..]);
    }
  }

  lemma AtolDigits(s: string)
    requires AllDigits(s)
    ensures Atol(s) == Saturated(Num(s))
  {
    hide Num, Saturated;
    AllRun(s);
    assert s != [] ==> IsDigit(s[0]);
    assert Unsigned(s) == s;
  }

  /** Groups of nine characters from the right, at most `n`, and whatever is left in the last. */
  function Parsed(w: string, n: nat): (d: seq<int>)
    requires n > 0
    ensures |d| == n
    decreases n
  {
    if n == 1 || |w| <= 9 then [Atol(w)] + seq(n - 1, _ => 0)
    else [Atol(w[|w| - 9..])] + Parsed(w[..|w| - 9], n - 1)
  }

  /** The digits found so far, the rest of the text standing above them. */
  ghost predicate Parsing(value: int, low: seq<int>, rest: string) {
    AllDigits(rest) && Mag(low + [Num(rest)]) == value && Proper(low)
  }

  lemma ParseStart(s: string)
    requires AllDigits(s)
    ensures Parsing(Num(s), [], s)
  {
    assert [] + [Num(s) as int] == [Num(s) as int] && [Num(s) as int][1..] == [];
  }

  lemma ParseGroup(value: int, low: seq<int>, rest: string)
    requires |rest| > 9 && Parsing(value, low, rest)
    ensures var n := |rest| - 9;
      AllDigits(rest[n..]) && Num(rest[n..]) < LIMIT && Parsing(value, low + [Num(rest[n..])], rest[..n])
  {
    hide Num, Mag;
    var n := |rest| - 9;
    var head, tail := rest[..n], rest[n..];
    assert rest == head + tail;
    NumJoin9(head, tail);
    NumBound(tail);
    Nine();
    SplitTop(low, Num(tail), Num(head));
    assert low + [Num(tail), Num(head)] == low + [Num(tail)] + [Num(head)];
  }

  /** What a numeral's value comes out as: the part above the fourth digit is kept in 32 bits. */
  function ParsedValue(value: nat): int {
    var top := value / LIMIT_4;
    value - LIMIT_4 * (top - Saturated(top))
  }

  lemma ParsedExact(value: nat)
    ensures ParsedValue(value) == value <==> value / LIMIT_4 < TWO32
  {
    hide Saturated;
  }

  /** `_CFBigNumFromCString`. */
  method FromCString(r: BigNum, text: string)
    modifies r
    ensures r.sign == if text != [] && text[0] == '-' then -1 else 0
    ensures var u := Unsigned(text); r.digits == Parsed(u[Zeros(u)..], 5)
    ensures IsNumeral(text) ==> var value := Num(Unsigned(text));
      && Mag(r.digits) == ParsedValue(value)
      && (Mag(r.digits) == value <==> value / LIMIT_4 < TWO32)
      && (value < LIMIT_5 ==> r.Valid())
  {
    hide Mag, Num, Zeros, Parsed, ParsedValue;
    r.sign := 0;
    var i := 0;
    if text != [] && text[0] == '-' {
      r.sign := -1;
      i := 1;
    } else if text != [] && text[0] == '+' {
      i := 1;
    }
    assert text[i..] == Unsigned(text);
    var working := SkipZeros(Unsigned(text));
    if IsNumeral(text) {
      ParsedExact(Num(Unsigned(text)));
    }
    if working == [] {
      r.digits := [0, 0, 0, 0, 0];
      NoText();
      FiveDigits(r.digits);
      return;
    }
    var digits := ParseDigits(working);
    r.digits := digits;
  }

  lemma NoText()
    ensures Num([]) == 0 && ParsedValue(0) == 0 && Parsed([], 5) == [0, 0, 0, 0, 0]
  {
    assert Atol([]) == 0;
  }

  method SkipZeros(s: string) returns (t: string)
    ensures t == s[Zeros(s)..]
    ensures AllDigits(s) ==> AllDigits(t) && Num(t) == Num(s)
  {
    hide Num, Zeros;
    var k := 0;
    while k < |s| && s[k] == '0'
      invariant 0 <= k <= |s| && forall j :: 0 <= j < k ==> s[j] == '0'
    {
      k := k + 1;
    }
    ZerosAre(s, k);
    if AllDigits(s) {
      DropZeros(s, k);
    }
    t := s[k..];
  }

  /** The groups taken so far, and that together with the rest they are all. */
  ghost predicate Taking(working: string, low: seq<int>, length: nat) {
    && length <= |working| && |low| < 5
    && low + Parsed(working[..length], 5 - |low|) == Parsed(working, 5)
    && (AllDigits(working) ==> Parsing(Num(working), low, working[..length]))
  }

  lemma TakeStart(working: string)
    ensures Taking(working, [], |working|)
  {
    hide Parsed;
    assert working[..|working|] == working;
    if AllDigits(working) {
      ParseStart(working);
    }
  }

  lemma TakeGroup(working: string, low: seq<int>, length: nat)
    requires Taking(working, low, length) && |low| < 4 && 9 < length
    ensures Taking(working, low + [Atol(working[length - 9..length])], length - 9)
  {
    hide Num, Mag, Atol, Parsed, Parsing;
    var rest, group := working[..length], working[length - 9..length];
    assert group == rest[length - 9..] && rest[..length - 9] == working[..length - 9];
    ParsedGroup(rest, low, 5 - |low|);
    if AllDigits(working) {
      ParseGroup(Num(working), low, rest);
      SmallGroup(group);
    }
  }

  lemma ParsedGroup(rest: string, low: seq<int>, n: nat)
    requires n > 1 && |rest| > 9
    ensures low + Parsed(rest, n) == low + [Atol(rest[|rest| - 9..])] + Parsed(rest[..|rest| - 9], n - 1)
  {
    hide Atol;
  }

  lemma TakeLast(working: string, low: seq<int>, length: nat, d: seq<int>)
    requires Taking(working, low, length) && (|low| == 4 || length <= 9)
    requires d == low + [Atol(working[..length])] + seq(4 - |low|, _ => 0)
    ensures d == Parsed(working, 5)
    ensures AllDigits(working) ==> Mag(d) == ParsedValue(Num(working)) && (Num(working) < LIMIT_5 ==> Proper(d))
  {
    hide Num, Mag, Atol, ParsedValue;
    var rest := working[..length];
    assert Parsed(rest, 5 - |low|) == [Atol(rest)] + seq(4 - |low|, _ => 0);
    if AllDigits(working) {
      ParseEnd(Num(working), low, rest, d);
    }
  }

  /** Groups of nine from the right, and whatever is left in the top digit. */
  method ParseDigits(working: string) returns (d: seq<int>)
    requires working != []
    ensures d == Parsed(working, 5)
    ensures AllDigits(working) ==> Mag(d) == ParsedValue(Num(working)) && (Num(working) < LIMIT_5 ==> Proper(d))
  {
    hide Num, Mag, Atol, Taking, Parsed, ParsedValue;
    var low: seq<int> := [];
    var length := |working|;
    TakeStart(working);
    while |low| + 1 < 5 && 9 < length
      invariant 0 < length <= |working| && |low| <= 4 && Taking(working, low, length)
    {
      TakeGroup(working, low, length);
      low := low + [Atol(working[length - 9..length])];
      length := length - 9;
    }
    d := low + [Atol(working[..length])] + seq(4 - |low|, _ => 0);
    TakeLast(working, low, length, d);
  }

  lemma SmallGroup(s: string)
    requires AllDigits(s)
    ensures Num(s) < LIMIT ==> Atol(s) == Num(s)
  {
    AtolDigits(s);
  }

  lemma {:induction false} TrailingZeros(d: seq<int>, n: nat)
    ensures Mag(d + seq(n, _ => 0)) == Mag(d)
  {
    var z := d + seq(n, _ => 0);
    if d == [] {
      if n > 0 {
        TrailingZeros([], n - 1);
        assert z[1..] == [] + seq(n - 1, _ => 0);
      }
    } else {
      TrailingZeros(d[1..], n);
      assert z[1..] == d[1..] + seq(n, _ => 0);
    }
  }

  lemma {:induction false} PowUpTo(n: nat, m: nat)
    requires n <= m
    ensures Pow10(n) <= Pow10(m)
  {
    if n < m {
      PowUpTo(n, m - 1);
    }
  }

  /** The top digit of five is the quotient by the fourth power. */
  lemma TopDigit(d: seq<int>)
    requires |d| == 5 && Proper(d[..4])
    ensures Mag(d) / LIMIT_4 == d[4]
  {
    hide Mag;
    FiveDigits(d);
    assert forall i :: 0 <= i < 4 ==> d[i] == d[..4][i];
    var low := d[0] + LIMIT * d[1] + LIMIT_2 * d[2] + LIMIT_3 * d[3];
    assert 0 <= low < LIMIT_4 && Mag(d) == low + LIMIT_4 * d[4];
  }

  /** The top digit is right unless it overflows, which it does from 2^32 on. */
  lemma ParseEnd(value: nat, low: seq<int>, rest: string, d: seq<int>)
    requires |low| <= 4 && Parsing(value, low, rest) && (|low| < 4 ==> |rest| <= 9)
    requires d == low + [Atol(rest)] + seq(4 - |low|, _ => 0)
    ensures |d| == 5 && Mag(d) == ParsedValue(value)
    ensures value < LIMIT_5 ==> Proper(d)
  {
    hide Mag, Num, Atol, Saturated;
    var full := low + [Num(rest)] + seq(4 - |low|, _ => 0);
    TrailingZeros(low + [Num(rest)], 4 - |low|);
    if |low| < 4 {
      NumBound(rest);
      PowUpTo(|rest|, 9);
      Nine();
      SmallGroup(rest);
      assert d == full && Proper(full[..4]) && full[4] == 0;
      TopDigit(full);
    } else {
      assert full[..4] == low && full == low + [Num(rest)] && d == low + [Atol(rest)];
      TopDigit(full);
      AtolDigits(rest);
      FiveDigits(full);
      FiveDigits(d);
    }
  }

  /** A one and 46 zeros: the group above the fourth digit is ten billion, and comes out modulo 2 to the 32. */
  method LongText(r: BigNum)
    modifies r
    ensures Num(['1'] + Padding(46)) == 10_000_000_000 * LIMIT_4
    ensures Mag(r.digits) == 1_410_065_408 * LIMIT_4
  {
    hide Mag, Num, Parsed;
    var text := ['1'] + Padding(46);
    LongNum();
    assert Unsigned(text) == text;
    FromCString(r, text);
  }

  lemma LongNum()
    ensures Num(['1'] + Padding(46)) == 10_000_000_000 * LIMIT_4
  {
    hide Num, Pow10;
    OneNum();
    NumJoin(['1'], Padding(46));
    DropZeros(Padding(46), 46);
    assert Padding(46)[46..] == [];
    Pow46();
  }

  lemma OneNum()
    ensures Num(['1']) == 1 && Num([]) == 0
  {
    assert ['1'][..0] == [];
  }

  lemma Pow46()
    ensures Pow10(46) == 10_000_000_000 * LIMIT_4
  {
    Nine();
    assert Pow10(1) == 10;
    hide Pow10;
    Pow36();
    PowSum10(36, 1);
    PowSum10(37, 9);
  }

  lemma Pow36()
    ensures Pow10(36) == LIMIT_4
  {
    hide Pow10;
    Nine();
    PowSum10(9, 9);
    PowSum10(18, 9);
    PowSum10(27, 9);
  }

  // ---------- Round trip

  /** Proper digits are determined by the number. */
  lemma {:induction false} MagUnique(a: seq<int>, b: seq<int>)
    requires |a| == |b| && Proper(a) && Proper(b) && Mag(a) == Mag(b)
    ensures a == b
  {
    if a != [] {
      assert a[0] == b[0] && Mag(a[1..]) == Mag(b[1..]);
      MagUnique(a[1..], b[1..]);
      assert a == [a[0]] + a[1..] && b == [b[0]] + b[1..];
    }
  }

  /** A printed number is read back digit for digit exactly when no digit is one billion or more. */
  method PrintThenParse(vp: BigNum, leadingZeros: bool, leadingPlus: bool, buflen: nat) returns (r: BigNum)
    requires |vp.digits| == 5 && Printable(vp.digits) && (vp.sign == 0 || vp.sign == -1)
    requires buflen > |Significant(Kept(vp.digits))| + 1
    ensures r.sign == vp.sign && (r.digits == vp.digits <==> Proper(vp.digits))
  {
    hide Mag, Num, Kept, Significant, Shown, Parsed, Zeros;
    ghost var d, sign := vp.digits, vp.sign;
    ghost var g := Kept(d);
    var s := ToCString(vp, leadingZeros, leadingPlus, buflen);
    WithoutSign(vp.sign, leadingPlus, s);
    ShownSpells(g, leadingZeros, buflen - |Prefix(sign, leadingPlus)|);
    KeptBound(g);
    r := new BigNum();
    FromCString(r, s);
    ReadBack(r.digits, d, Num(g));
  }

  lemma KeptBound(g: string)
    requires |g| == 45 && AllDigits(g)
    ensures Num(g) < LIMIT_5
  {
    hide Num, Pow10;
    NumBound(g);
    Nine();
    Pow36();
    PowSum10(36, 9);
  }

  lemma {:induction false} PowSum10(a: nat, b: nat)
    ensures Pow10(a + b) == Pow10(a) * Pow10(b)
  {
    if b > 0 {
      PowSum10(a, b - 1);
      Times10(Pow10(a), Pow10(b - 1));
    }
  }

  lemma ReadBack(r: seq<int>, d: seq<int>, n: nat)
    requires |r| == |d| == 5 && Proper(r) && Mag(r) == n && (n == Mag(d) <==> Proper(d))
    ensures r == d <==> Proper(d)
  {
    hide Mag;
    if Proper(d) {
      MagUnique(r, d);
    }
  }

  lemma WithoutSign(sign: int, leadingPlus: bool, s: string)
    requires (sign == 0 || sign == -1) && Prefix(sign, leadingPlus) <= s && AllDigits(s[|Prefix(sign, leadingPlus)|..])
    ensures Unsigned(s) == s[|Prefix(sign, leadingPlus)|..]
    ensures sign == if s != [] && s[0] == '-' then -1 else 0
  {
  }
}
