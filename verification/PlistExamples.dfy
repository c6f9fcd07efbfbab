/** Small files in full: what is written and read, byte by byte. */
module PlistExamples {
  import opened BigEndian
  import opened Machine
  import opened PlistFormat
  import opened PlistBuffer
  import opened PlistEncode
  import opened PlistFlatten
  import opened PlistReader
  import opened PlistWriter
  import opened PlistRoundTrip

  lemma SmallNumbers(n: byte)
    ensures ToBE(n, 1) == [n] && ToBE(n, 8) == [0, 0, 0, 0, 0, 0, 0, n]
  {
    assert ToBE(0, 2) == [0, 0] && ToBE(0, 4) == [0, 0, 0, 0] && ToBE(0, 6) == [0, 0, 0, 0, 0, 0];
    assert ToBE(0, 7) == [0, 0, 0, 0, 0, 0, 0] && n / 256 == 0 && n % 256 == n;
    assert ToBE(n / 256, 0) == [];
  }

  lemma TwoParts(a: seq<byte>, b: seq<byte>)
    ensures Flat([a, b]) == a + b && Starts([a, b]) == [8, 8 + |a|]
  {
    assert [a, b][..1] == [a] && [a][..0] == [] && [a, b][..0] == [] && [a, b][..2] == [a, b];
    assert Flat([a]) == a;
  }

  lemma ThreeParts(a: seq<byte>, b: seq<byte>, c: seq<byte>)
    ensures Flat([a, b, c]) == a + b + c && Starts([a, b, c]) == [8, 8 + |a|, 8 + |a| + |b|]
  {
    TwoParts(a, b);
    assert [a, b, c][..2] == [a, b] && [a, b, c][..1] == [a] && [a, b, c][..0] == [];
    assert [a, b][..1] == [a] && Flat([a]) == a by { TwoParts(a, []); OnePart(a); }
  }

  lemma OnePart(a: seq<byte>)
    ensures Flat([a]) == a
  {
    assert [a][..0] == [];
  }

  lemma SmallTable(a: byte, b: byte, c: byte)
    ensures RefBytes([a], 1) == [a] && RefBytes([a, b], 1) == [a, b] && RefBytes([a, b, c], 1) == [a, b, c]
  {
    hide ToBE;
    SmallNumbers(a);
    SmallNumbers(b);
    SmallNumbers(c);
    assert [a as nat][..0] == [] && [a as nat, b as nat][..1] == [a as nat];
    assert [a as nat, b as nat, c as nat][..2] == [a as nat, b as nat];
    assert RefBytes([], 1) == [];
  }

  // ---------- A file whose top object is not its first

  const ZEROS: seq<byte> := [0, 0, 0, 0, 0, 0, 0]

  function Trail(intSize: byte, refSize: byte, num: byte, top: byte, table: byte): seq<byte> {
    [0, 0, 0, 0, 0, 0, intSize, refSize] + ZEROS + [num] + ZEROS + [top] + ZEROS + [table]
  }

  /** An array of true, stored after its element. */
  const TRUE_THEN_ARRAY: seq<byte> :=
    [0x62, 0x70, 0x6C, 0x69, 0x73, 0x74, 0x30, 0x30] + [0x09] + [0xA1, 0x00] + [8, 9] + Trail(1, 1, 2, 1, 11)

  lemma TrueThenArray()
    ensures TopImage([[0x09], [0xA1, 0x00]], 1) == TRUE_THEN_ARRAY && |TRUE_THEN_ARRAY| == 45
    ensures |Image([[0x09], [0xA1, 0x00]])| == 45 && StartOf([[0x09], [0xA1, 0x00]], 1) == 9
  {
    hide ToBE, RefBytes, Flat, Starts, Pow256;
    var a: seq<byte>, b: seq<byte> := [0x09], [0xA1, 0x00];
    var parts := [a, b];
    TwoParts(a, b);
    SmallTable(8, 9, 0);
    SmallNumbers(2);
    SmallNumbers(1);
    SmallNumbers(0);
    SmallNumbers(11);
    assert parts[..2] == parts && StartOf(parts, 2) == 11;
    assert Starts(parts)[1] == StartOf(parts, 1) by { StartsAt(parts, 1); }
  }

  lemma StartsAt(parts: seq<seq<byte>>, i: nat)
    requires i < |parts|
    ensures Starts(parts)[i] == StartOf(parts, i)
  {
  }

  method ReadTopSecond() returns (top: Option<TopLevel>, r: Option<Plist>)
    ensures top == Some(TopLevel(Trailer(1, 1, 2, 1, 11), 9, 0xA1))
    ensures r == Some(Node(Array, [Leaf(Bool(true))]))
  {
    hide TopImage, Image, Flat, StartOf, Sizeable, RefBytes, Decode, Unfolds, ReadBack, Starts, WellFormed, TopOf, ParsedValue;
    var g: Graph := map[0 := Plain(Bool(true)), 1 := Holder(Array, [0])];
    var list: seq<Ref>, table: map<Ref, nat> := [0, 1], map[0 := 0, 1 := 1];
    ghost var t := Node(Array, [Leaf(Bool(true))]);
    TrueThenArray();
    TrueGraph(g, list, table, t);
    var off;
    off, r := ParseAnyOnTop(0, g, list, table, 1, t);
    top := TopSecond();
  }

  lemma TrueGraph(g: Graph, list: seq<Ref>, table: map<Ref, nat>, t: Plist)
    requires g == map[0 := Plain(Bool(true)), 1 := Holder(Array, [0])] && list == [0, 1] && table == map[0 := 0, 1 := 1]
    requires t == Node(Array, [Leaf(Bool(true))])
    ensures Numbered(g, list, table) && ClosedFrom(g, list, table, 0) && WritableFrom(g, list, 0)
    ensures Parts(g, list, table, Width(|list|)) == [[0x09], [0xA1, 0x00]]
    ensures Unfolds(g, list[1], t) && KeysScalar(t) && ReadBack(t) == t
    ensures Sizeable(Parts(g, list, table, Width(|list|)))
  {
    hide TopImage, Image, RefBytes, Pow256;
    SmallTable(0, 0, 0);
    TrueThenArray();
    assert Unfolds(g, 0, Leaf(Bool(true)));
    assert NumbersOf([0], table) == [0] && Width(2) == 1;
    var parts := Parts(g, list, table, 1);
    assert parts[0] == [0x09] && parts[1] == [0xA0 + 1] + RefBytes([0], 1) == [0xA1, 0x00];
    assert parts == [parts[0], parts[1]];
    assert ReadBack(Leaf(Bool(true))) == Leaf(Bool(true));
    assert ReadBack(t).children == t.children;
  }

  method TopSecond() returns (top: Option<TopLevel>)
    ensures top == Some(TopLevel(Trailer(1, 1, 2, 1, 11), 9, 0xA1))
  {
    var parts: seq<seq<byte>> := [[0x09], [0xA1, 0x00]];
    TrueThenArray();
    hide TopImage, Image, RefBytes, Pow256, StartOf, WellFormed, TopOf, Flat;
    ImageWellFormed(parts, 1);
    top := GetTopLevelInfo(0, TRUE_THEN_ARRAY);
    TopIs(TRUE_THEN_ARRAY);
  }

  lemma TopIs(data: seq<byte>)
    requires WellFormed(data)
    ensures TopOf(data).offset < |data| && TopOf(data).marker == data[TopOf(data).offset]
  {
    hide SizedInt, OffsetEntry;
  }

  // ---------- An array of two equal strings

  const STRINGS_GRAPH: Graph := map[0 := Holder(Array, [1, 2]), 1 := Plain(Text([0x61])), 2 := Plain(Text([0x61]))]

  const SHARED: seq<byte> :=
    [0x62, 0x70, 0x6C, 0x69, 0x73, 0x74, 0x30, 0x30] + [0xA2, 0x01, 0x01] + [0x51, 0x61] + [8, 11] + Trail(1, 1, 2, 0, 13)

  const APART: seq<byte> :=
    [0x62, 0x70, 0x6C, 0x69, 0x73, 0x74, 0x30, 0x30] + [0xA2, 0x01, 0x02] + [0x51, 0x61] + [0x51, 0x61]
      + [8, 11, 13] + Trail(1, 1, 3, 0, 15)

  /** Two equal strings in one array share an entry exactly when the uniquing set takes them for the same. */
  method TwoStrings(same: (Ref, Ref) -> bool) returns (length: nat, stream: seq<byte>)
    requires SoundEquality(STRINGS_GRAPH, same)
    ensures same(1, 2) ==> length == 47 && stream == SHARED
    ensures !same(1, 2) ==> length == 50 && stream == APART
  {
    hide Image, TopImage, Parts, Kept, Visits, AllPlaced, ClosedFrom, Numbered, Bulk, Size, SoundEquality, Unfolds, Writable,
      WriteBuffer.Valid, WritableFrom;
    ghost var t := Node(Array, [Leaf(Text([0x61])), Leaf(Text([0x61]))]);
    StringsTree(t);
    var buf := new WriteBuffer(true);
    ghost var list, table;
    length, list, table := Write(STRINGS_GRAPH, 0, same, buf, t);
    stream := buf.stream;
    StringsKept(same);
    StringsNumbered(same, list, table);
    StringsBytes(table);
  }

  lemma StringsTree(t: Plist)
    requires t == Node(Array, [Leaf(Text([0x61])), Leaf(Text([0x61]))])
    ensures Unfolds(STRINGS_GRAPH, 0, t) && Writable(t) && Size(t) == 3 && Bulk(t) < 1000
    ensures Visits(STRINGS_GRAPH, 0, t) == [0, 1, 2]
  {
    var g, leaf := STRINGS_GRAPH, Leaf(Text([0x61]));
    StringsUnfold(leaf, t);
    StringsWritable(leaf, t);
    hide Unfolds, Writable, VisitsAll, Size, Bulk;
    StringsVisits(g, leaf);
    assert g[0].refs == [1, 2];
  }

  lemma StringsUnfold(leaf: Plist, t: Plist)
    requires leaf == Leaf(Text([0x61])) && t == Node(Array, [leaf, leaf])
    ensures Unfolds(STRINGS_GRAPH, 1, leaf) && Unfolds(STRINGS_GRAPH, 2, leaf) && Unfolds(STRINGS_GRAPH, 0, t)
  {
  }

  lemma StringsWritable(leaf: Plist, t: Plist)
    requires leaf == Leaf(Text([0x61])) && t == Node(Array, [leaf, leaf])
    ensures Writable(t) && Size(t) == 3 && Bulk(t) < 1000
  {
    hide SizeAll, BulkAll;
    TwoChildren(leaf, leaf);
  }

  lemma StringsVisits(g: Graph, leaf: Plist)
    requires leaf.Leaf? && Unfolds(g, 1, leaf) && Unfolds(g, 2, leaf)
    ensures VisitsAll(g, [1, 2], [leaf, leaf]) == [1, 2]
  {
    hide Unfolds;
    assert Visits(g, 1, leaf) == [1] && Visits(g, 2, leaf) == [2];
    var refs: seq<Ref>, ts := [1, 2], [leaf, leaf];
    assert refs[..1] == [1] && ts[..1] == [leaf] && refs[..1][..0] == [] && ts[..1][..0] == [];
    assert VisitsAll(g, refs[..1], ts[..1]) == [1];
  }

  lemma StringsKept(same: (Ref, Ref) -> bool)
    ensures Kept(STRINGS_GRAPH, same, [], [0, 1, 2]) == if same(1, 2) then [0, 1] else [0, 1, 2]
  {
    var g := STRINGS_GRAPH;
    hide Kept, Repeats;
    KeptOne(g, same, [], 0);
    KeptCat(g, same, [], [0], [1]);
    KeptOne(g, same, [0], 1);
    KeptCat(g, same, [], [0, 1], [2]);
    KeptOne(g, same, [0, 1], 2);
    assert [0] + [1] == [0, 1] && [0, 1] + [2] == [0, 1, 2] && [] + [0] == [0];
    StringsRepeat(same);
  }

  lemma StringsRepeat(same: (Ref, Ref) -> bool)
    ensures !Repeats(STRINGS_GRAPH, same, [], 0) && !Repeats(STRINGS_GRAPH, same, [0], 1)
    ensures Repeats(STRINGS_GRAPH, same, [0, 1], 2) <==> same(1, 2)
  {
    assert 1 in [0, 1];
  }

  lemma StringsNumbered(same: (Ref, Ref) -> bool, list: seq<Ref>, table: map<Ref, nat>)
    requires list == if same(1, 2) then [0, 1] else [0, 1, 2]
    requires AllPlaced(STRINGS_GRAPH, same, list, table) && ClosedFrom(STRINGS_GRAPH, list, table, 0)
    ensures 1 in table && table[1] == 1 && 2 in table && table[2] == if same(1, 2) then 1 else 2
  {
    var g := STRINGS_GRAPH;
    assert list[1] == 1 && list[0] == 0 && 1 in list;
    assert ChildrenNumbered(g, list[0], table) && g[0].refs[1] == 2;
    assert Placed(g, same, list, 1, table[1]) && Placed(g, same, list, 2, table[2]);
    FirstIs(list, 1, 1, table[1]);
    if same(1, 2) {
      assert 2 !in list;
      var u :| u in list && u in g && IsValue(g[u]) && same(u, 2) && FirstAt(list, u, table[2]);
      FirstIs(list, 1, 1, table[2]);
    } else {
      assert list[2] == 2;
      FirstIs(list, 2, 2, table[2]);
    }
  }

  /** An object's first place is only one. */
  lemma FirstIs(list: seq<Ref>, x: Ref, i: nat, j: nat)
    requires i < |list| && list[i] == x && (forall k :: 0 <= k < i ==> list[k] != x) && FirstAt(list, x, j)
    ensures i == j
  {
    assert forall k :: 0 <= k < j ==> list[..j][k] == list[k];
  }

  lemma StringsBytes(table: map<Ref, nat>)
    requires 1 in table && table[1] == 1 && 2 in table && (table[2] == 1 || table[2] == 2)
    ensures table[2] == 1 ==> Image(Parts(STRINGS_GRAPH, [0, 1], table, Width(2))) == SHARED
    ensures table[2] == 2 ==> Image(Parts(STRINGS_GRAPH, [0, 1, 2], table, Width(3))) == APART
  {
    hide TopImage, Image, Pow256;
    StringsParts(table);
    var a: seq<byte>, b: seq<byte> := [0xA2, 0x01, table[2]], [0x51, 0x61];
    TwoImage(a, b);
    ThreeImage(a, b, b);
  }

  lemma StringsParts(table: map<Ref, nat>)
    requires 1 in table && table[1] == 1 && 2 in table && (table[2] == 1 || table[2] == 2)
    ensures Parts(STRINGS_GRAPH, [0, 1], table, Width(2)) == [[0xA2, 0x01, table[2]], [0x51, 0x61]]
    ensures Parts(STRINGS_GRAPH, [0, 1, 2], table, Width(3)) == [[0xA2, 0x01, table[2]], [0x51, 0x61], [0x51, 0x61]]
  {
    hide RefBytes, Pow256;
    var g := STRINGS_GRAPH;
    assert Width(2) == 1 && Width(3) == 1;
    assert NumbersOf([1, 2], table) == [1, table[2]];
    SmallTable(1, table[2], 0);
    var chars: seq<u16> := [0x61];
    assert IsAscii(chars) && Narrow(chars) == [0x61];
    assert EncodeScalar(Text(chars)) == [0x51, 0x61];
    assert EncodeRefs(Array, [1, table[2]], 1) == [0xA2] + [1, table[2]];
    var two, three := Parts(g, [0, 1], table, 1), Parts(g, [0, 1, 2], table, 1);
    var a: seq<byte>, b: seq<byte> := [0xA2, 0x01, table[2]], [0x51, 0x61];
    assert two[0] == a && two[1] == b && three[0] == a && three[1] == b && three[2] == b;
    assert two == [two[0], two[1]] && three == [three[0], three[1], three[2]];
  }

  lemma TwoImage(a: seq<byte>, b: seq<byte>)
    requires |a| == 3 && |b| == 2
    ensures Image([a, b]) ==
            [0x62, 0x70, 0x6C, 0x69, 0x73, 0x74, 0x30, 0x30] + a + b + [8, 11] + Trail(1, 1, 2, 0, 13)
  {
    hide ToBE, RefBytes, Flat, Starts, Pow256;
    TwoParts(a, b);
    SmallTable(8, 11, 0);
    SmallNumbers(2);
    SmallNumbers(0);
    SmallNumbers(13);
    assert [a, b][..2] == [a, b] && StartOf([a, b], 2) == 13;
  }

  lemma ThreeImage(a: seq<byte>, b: seq<byte>, c: seq<byte>)
    requires |a| == 3 && |b| == 2 && |c| == 2
    ensures Image([a, b, c]) ==
            [0x62, 0x70, 0x6C, 0x69, 0x73, 0x74, 0x30, 0x30] + a + b + c + [8, 11, 13] + Trail(1, 1, 3, 0, 15)
  {
    hide ToBE, RefBytes, Flat, Starts, Pow256;
    ThreeParts(a, b, c);
    SmallTable(8, 11, 13);
    SmallNumbers(3);
    SmallNumbers(0);
    SmallNumbers(15);
    assert [a, b, c][..3] == [a, b, c] && StartOf([a, b, c], 3) == 15;
  }
}
