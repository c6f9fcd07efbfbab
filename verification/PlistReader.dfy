/**
  Reading a binary property list. `Denotes` says which finite tree an offset stands for by
  following references alone; `Reader` models the recursive reader with its offset-keyed
  cache and its path set that exists only below depth 15, and is proved to return exactly
  the denoted tree.
 */
module PlistReader {
  import opened BigEndian
  import opened Machine
  import opened PlistFormat

  // ---------- What an offset denotes

  /** Following references from `off` unfolds to the finite tree `t`. */
  ghost predicate Denotes(d: Doc, off: nat, t: Plist)
    requires Checked(d)
    decreases t
  {
    match Decode(d, off)
    case None => false
    case Some(Atom(v)) => t == Leaf(v)
    case Some(Refs(kind, first, count)) =>
      && t.Node? && t.kind == kind && |t.children| == count
      && (forall i :: 0 <= i < count ==> Denotes(d, ChildOffset(d, Refs(kind, first, count), i), t.children[i]))
      && (kind.Dict? ==> forall i :: 0 <= i < count / 2 ==> t.children[i].Leaf?)
  }

  /** An offset denotes at most one tree. */
  lemma {:induction false} DenotesUnique(d: Doc, off: nat, t: Plist, u: Plist)
    requires Checked(d) && Denotes(d, off, t) && Denotes(d, off, u)
    ensures t == u
    decreases t
  {
    if t.Node? {
      var s := Decode(d, off).value;
      forall i | 0 <= i < |t.children| ensures t.children[i] == u.children[i] {
        DenotesUnique(d, ChildOffset(d, s, i), t.children[i], u.children[i]);
      }
    }
  }

  /** The tree at an offset, if there is one. */
  ghost function Meaning(d: Doc, off: nat): (r: Option<Plist>)
    requires Checked(d)
    ensures r.Some? ==> Denotes(d, off, r.value)
    ensures r.None? ==> forall t :: !Denotes(d, off, t)
  {
    if t :| Denotes(d, off, t) then Some(t) else None
  }

  lemma MeaningIs(d: Doc, off: nat, t: Plist)
    requires Checked(d) && Denotes(d, off, t)
    ensures Meaning(d, off) == Some(t)
  {
    DenotesUnique(d, off, t, Meaning(d, off).value);
  }

  // ---------- References between objects

  ghost predicate Edge(d: Doc, a: nat, b: nat)
    requires Checked(d)
  {
    && Decode(d, a).Some? && Decode(d, a).value.Refs?
    && exists i :: 0 <= i < Decode(d, a).value.count && ChildOffset(d, Decode(d, a).value, i) == b
  }

  ghost predicate Chain(d: Doc, s: seq<nat>)
    requires Checked(d)
  {
    forall i :: 0 <= i < |s| - 1 ==> Edge(d, s[i], s[i + 1])
  }

  ghost predicate ChainFromTo(d: Doc, s: seq<nat>, a: nat, b: nat)
    requires Checked(d)
  {
    |s| >= 2 && s[0] == a && s[|s| - 1] == b && Chain(d, s)
  }

  /** `b` is reached from `a` by one or more references. */
  ghost predicate Reaches(d: Doc, a: nat, b: nat)
    requires Checked(d)
  {
    exists s :: ChainFromTo(d, s, a, b)
  }

  lemma EdgeReaches(d: Doc, a: nat, b: nat)
    requires Checked(d) && Edge(d, a, b)
    ensures Reaches(d, a, b)
  {
    assert ChainFromTo(d, [a, b], a, b);
  }

  lemma ReachesEdge(d: Doc, a: nat, b: nat, c: nat)
    requires Checked(d) && Reaches(d, a, b) && Edge(d, b, c)
    ensures Reaches(d, a, c)
  {
    var s :| ChainFromTo(d, s, a, b);
    assert ChainFromTo(d, s + [c], a, c);
  }

  lemma EdgeThenReaches(d: Doc, a: nat, b: nat, c: nat)
    requires Checked(d) && Edge(d, a, b) && Reaches(d, b, c)
    ensures Reaches(d, a, c)
  {
    var s :| ChainFromTo(d, s, b, c);
    var s' := [a] + s;
    forall i | 0 <= i < |s'| - 1 ensures Edge(d, s'[i], s'[i + 1]) {
      if i > 0 {
        assert Edge(d, s[i - 1], s[i]);
      }
    }
    assert ChainFromTo(d, s', a, c);
  }

  lemma {:induction false} SizeOfMember(ts: seq<Plist>, i: nat)
    requires i < |ts|
    ensures Size(ts[i]) <= SizeAll(ts)
  {
    var n := |ts| - 1;
    if i < n {
      assert ts[..n][i] == ts[i];
      SizeOfMember(ts[..n], i);
    }
  }

  lemma ChildIsSmaller(d: Doc, a: nat, b: nat, t: Plist) returns (u: Plist)
    requires Checked(d) && Edge(d, a, b) && Denotes(d, a, t)
    ensures Denotes(d, b, u) && Size(u) < Size(t)
  {
    assert Bounded(d);
    hide Checked, Decode, ChildOffset;
    var s := Decode(d, a).value;
    var i :| 0 <= i < s.count && ChildOffset(d, s, i) == b;
    u := t.children[i];
    SizeOfMember(t.children, i);
  }

  lemma ChainTail(d: Doc, s: seq<nat>)
    requires Checked(d) && |s| >= 2 && Chain(d, s)
    ensures Edge(d, s[0], s[1]) && Chain(d, s[1..])
  {
    hide Checked, Edge;
    forall j | 0 <= j < |s[1..]| - 1 ensures Edge(d, s[1..][j], s[1..][j + 1]) {
      assert Edge(d, s[j + 1], s[j + 1 + 1]);
    }
  }

  /** Everything reached from a denoting offset denotes a smaller tree. */
  lemma {:induction false} ReachedIsSmaller(d: Doc, s: seq<nat>, t: Plist) returns (u: Plist)
    requires Checked(d) && |s| >= 2 && Chain(d, s) && Denotes(d, s[0], t)
    ensures Denotes(d, s[|s| - 1], u) && Size(u) < Size(t)
    decreases |s|
  {
    hide Checked, Edge, Chain, Denotes, Size;
    ChainTail(d, s);
    u := ChildIsSmaller(d, s[0], s[1], t);
    if |s| > 2 {
      u := ReachedIsSmaller(d, s[1..], u);
    }
  }

  /** An object that reaches itself stands for no finite tree. */
  lemma CycleDenotesNothing(d: Doc, off: nat)
    requires Checked(d) && Reaches(d, off, off)
    ensures Meaning(d, off) == None
  {
    if Meaning(d, off).Some? {
      var t := Meaning(d, off).value;
      var s :| ChainFromTo(d, s, off, off);
      var u := ReachedIsSmaller(d, s, t);
      DenotesUnique(d, off, t, u);
    }
  }

  ghost predicate AllReach(d: Doc, offs: set<nat>, off: nat)
    requires Checked(d)
  {
    forall o :: o in offs ==> Reaches(d, o, off)
  }

  ghost predicate AllReachOrAre(d: Doc, offs: set<nat>, off: nat)
    requires Checked(d)
  {
    forall o :: o in offs ==> o == off || Reaches(d, o, off)
  }

  // ---------- The reader

  /** The mutable set of offsets on the way down to the current object. */
  class PathSet {
    var offsets: set<nat>

    constructor ()
      ensures offsets == {}
    {
      offsets := {};
    }
  }

  class Reader {
    const doc: Doc
    const caching: bool          // whether the caller supplied an object cache
    var objects: map<nat, Plist>

    constructor (doc: Doc, caching: bool)
      requires Checked(doc)
      ensures Valid() && this.doc == doc && this.caching == caching
    {
      this.doc := doc;
      this.caching := caching;
      objects := map[];
    }

    /** Everything in the cache is what its offset denotes. */
    ghost predicate Valid()
      reads this
    {
      Checked(doc) && forall o :: o in objects ==> Denotes(doc, o, objects[o])
    }

    ghost function Footprint(path: PathSet?): set<object> {
      if path == null then {} else {path}
    }

    /** Every offset in the path set leads down to this object. */
    ghost predicate OnPathTo(path: PathSet?, off: nat)
      requires Checked(doc)
      reads Footprint(path)
    {
      path != null ==> AllReach(doc, path.offsets, off)
    }

    /** Object offsets not on the path; shrinks with every level once the path set exists. */
    ghost function Unvisited(path: PathSet?): set<nat>
      reads Footprint(path)
    {
      if path == null then {} else set o | 8 <= o < doc.tr.offsetTableOffset && o !in path.offsets
    }

    /**
      The unfiltered immutable `__CFBinaryPlistCreateObjectFiltered`. Whatever the cache
      holds, and whether or not the path set exists yet, the result is the meaning of `off`.
     */
    method CreateObject(off: nat, path: PathSet?, depth: nat) returns (r: Option<Plist>)
      requires Valid() && OnPathTo(path, off)
      modifies this`objects, Footprint(path)
      ensures Valid()
      ensures r == Meaning(doc, off)
      ensures path != null && r.Some? ==> path.offsets == old(path.offsets)
      decreases path == null, if path == null && depth < 17 then 17 - depth else 0, Unvisited(path), 1
    {
      if caching && off in objects {
        MeaningIs(doc, off, objects[off]);
        return Some(objects[off]);
      }
      if path != null && off in path.offsets {
        CycleDenotesNothing(doc, off);
        return None;
      }
      match Decode(doc, off)
      case None =>
        r := None;
      case Some(Atom(v)) =>
        r := Some(Leaf(v));
        MeaningIs(doc, off, Leaf(v));
        if caching && !v.Null? && !v.Bool? {
          objects := objects[off := Leaf(v)];
        }
      case Some(Refs(kind, first, count)) =>
        r := CreateContainer(off, Refs(kind, first, count), path, depth);
    }

    /** A container: the path set is made below depth 15, and holds `off` while the children are read. */
    method CreateContainer(off: nat, s: Shallow, path: PathSet?, depth: nat) returns (r: Option<Plist>)
      requires Valid() && OnPathTo(path, off)
      requires Decode(doc, off) == Some(s) && s.Refs?
      requires path != null ==> off !in path.offsets
      modifies this`objects, Footprint(path)
      ensures Valid()
      ensures r == Meaning(doc, off)
      ensures path != null && r.Some? ==> path.offsets == old(path.offsets)
      decreases path == null, if path == null && depth < 17 then 17 - depth else 0, Unvisited(path), 0
    {
      assert 8 <= off < doc.tr.offsetTableOffset;
      hide Checked, Decode, Denotes;
      var visited := path;
      if visited == null && 15 < depth {
        visited := new PathSet();
      }
      if visited != null {
        visited.offsets := visited.offsets + {off};
      }
      assert path != null ==> off in old(Unvisited(path)) && Unvisited(path) == old(Unvisited(path)) - {off};
      var list := ReadChildren(off, s, visited, depth);
      if list.None? {
        return None;
      }
      if visited != null {
        visited.offsets := visited.offsets - {off};
      }
      r := Some(Node(s.kind, list.value));
      if caching {
        objects := objects[off := Node(s.kind, list.value)];
      }
    }

    /** The loop over a container's references. */
    method ReadChildren(off: nat, s: Shallow, visited: PathSet?, depth: nat) returns (r: Option<seq<Plist>>)
      requires Valid() && Decode(doc, off) == Some(s) && s.Refs?
      requires visited == null ==> depth <= 15
      requires visited != null ==> off in visited.offsets && AllReachOrAre(doc, visited.offsets, off)
      modifies this`objects, Footprint(visited)
      ensures Valid()
      ensures r.Some? ==> Denotes(doc, off, Node(s.kind, r.value)) && Meaning(doc, off) == Some(Node(s.kind, r.value))
      ensures r.None? ==> Meaning(doc, off) == None
      ensures visited != null && r.Some? ==> visited.offsets == old(visited.offsets)
      decreases visited == null, if visited == null then 16 - depth else 0, Unvisited(visited), 2
    {
      hide Checked, Decode, ChildrenRead, Denotes, Reaches, OffsetOfRefAt, Meaning, AllReach, AllReachOrAre;
      NoChildrenRead(doc, s);
      var list: seq<Plist> := [];
      var p := s.first;
      var idx := 0;
      while idx < s.count
        invariant 0 <= idx <= s.count && |list| == idx
        invariant p == s.first + Span(idx, doc.tr.objectRefSize)
        invariant Valid()
        invariant visited != null ==> visited.offsets == old(visited.offsets)
        invariant ChildrenRead(doc, s, list)
      {
        var child := OffsetOfRefAt(doc, p);
        ChildOnPath(off, s, idx, visited);
        var pl := CreateObject(child, visited, depth + 1);
        if pl.None? || (s.kind.Dict? && idx < s.count / 2 && !pl.value.Leaf?) {
          BadChild(doc, off, s, idx);
          return None;
        }
        OneMoreChildRead(doc, s, list, pl.value);
        list := list + [pl.value];
        p := p + doc.tr.objectRefSize;
        idx := idx + 1;
      }
      AllChildrenRead(doc, off, s, list);
      r := Some(list);
    }

    /** Adding the current offset keeps the set the path down to each child. */
    lemma ChildOnPath(off: nat, s: Shallow, idx: nat, visited: PathSet?)
      requires Checked(doc) && Decode(doc, off) == Some(s) && s.Refs? && idx < s.count
      requires visited != null ==> off in visited.offsets && AllReachOrAre(doc, visited.offsets, off)
      ensures OnPathTo(visited, ChildOffset(doc, s, idx))
    {
      if visited != null {
        var child := ChildOffset(doc, s, idx);
        assert Edge(doc, off, child);
        EdgeReaches(doc, off, child);
        forall o | o in visited.offsets ensures Reaches(doc, o, child) {
          if o != off {
            ReachesEdge(doc, o, off, child);
          }
        }
      }
    }
  }

  /** `list` holds the meanings of the first children, acceptable as keys where keys are due. */
  ghost predicate ChildrenRead(d: Doc, s: Shallow, list: seq<Plist>)
    requires Checked(d) && s.Refs?
  {
    && |list| <= s.count
    && (forall i :: 0 <= i < |list| ==> Denotes(d, ChildOffset(d, s, i), list[i]))
    && (s.kind.Dict? ==> forall i :: 0 <= i < |list| && i < s.count / 2 ==> list[i].Leaf?)
  }

  lemma NoChildrenRead(d: Doc, s: Shallow)
    requires Checked(d) && s.Refs?
    ensures ChildrenRead(d, s, [])
  {
  }

  lemma OneMoreChildRead(d: Doc, s: Shallow, list: seq<Plist>, pl: Plist)
    requires Checked(d) && s.Refs? && ChildrenRead(d, s, list) && |list| < s.count
    requires Denotes(d, ChildOffset(d, s, |list|), pl)
    requires s.kind.Dict? && |list| < s.count / 2 ==> pl.Leaf?
    ensures ChildrenRead(d, s, list + [pl])
  {
    hide Checked, Denotes, ChildOffset;
  }

  lemma AllChildrenRead(d: Doc, off: nat, s: Shallow, list: seq<Plist>)
    requires Checked(d) && s.Refs? && ChildrenRead(d, s, list) && |list| == s.count
    requires Decode(d, off) == Some(s)
    ensures Denotes(d, off, Node(s.kind, list))
    ensures Meaning(d, off) == Some(Node(s.kind, list))
  {
    MeaningIs(d, off, Node(s.kind, list));
  }

  /** A child without a meaning, or a container used as a key, leaves the parent without one. */
  lemma BadChild(d: Doc, off: nat, s: Shallow, idx: nat)
    requires Checked(d) && Decode(d, off) == Some(s) && s.Refs? && idx < s.count
    requires
      var m := Meaning(d, ChildOffset(d, s, idx));
      m.None? || (s.kind.Dict? && idx < s.count / 2 && !m.value.Leaf?)
    ensures Meaning(d, off) == None
  {
    if Meaning(d, off).Some? {
      var t := Meaning(d, off).value;
      assert Denotes(d, ChildOffset(d, s, idx), t.children[idx]);
      MeaningIs(d, ChildOffset(d, s, idx), t.children[idx]);
    }
  }

  // ---------- When reading succeeds

  ghost predicate ReachesOrIs(d: Doc, a: nat, b: nat)
    requires Checked(d)
  {
    a == b || Reaches(d, a, b)
  }

  /** An object that decodes, whose keys are scalars, and that does not contain itself. */
  ghost predicate Sound(d: Doc, off: nat)
    requires Checked(d)
  {
    && Decode(d, off).Some?
    && !Reaches(d, off, off)
    && var s := Decode(d, off).value;
       s.Refs? && s.kind.Dict? ==>
         forall i :: 0 <= i < s.count / 2 ==>
           Decode(d, ChildOffset(d, s, i)).Some? && Decode(d, ChildOffset(d, s, i)).value.Atom?
  }

  /** Reading succeeds exactly when every object reached is sound. */
  lemma MeaningIffSound(d: Doc, off: nat)
    requires Checked(d)
    ensures Meaning(d, off).Some? <==> forall b :: ReachesOrIs(d, off, b) ==> Sound(d, b)
  {
    if Meaning(d, off).Some? {
      forall b | ReachesOrIs(d, off, b) ensures Sound(d, b) {
        if b == off {
          DenotingIsSound(d, off, Meaning(d, off).value);
        } else {
          var s :| ChainFromTo(d, s, off, b);
          var u := ReachedIsSmaller(d, s, Meaning(d, off).value);
          DenotingIsSound(d, b, u);
        }
      }
    }
    if forall b :: ReachesOrIs(d, off, b) ==> Sound(d, b) {
      SoundDenotes(d, off, {});
    }
  }

  lemma DenotingIsSound(d: Doc, off: nat, t: Plist)
    requires Checked(d) && Denotes(d, off, t)
    ensures Sound(d, off)
  {
    if Reaches(d, off, off) {
      CycleDenotesNothing(d, off);
    }
    if t.Node? {
      var s := Decode(d, off).value;
      forall i | 0 <= i < s.count / 2 && s.kind.Dict?
        ensures Decode(d, ChildOffset(d, s, i)).Some? && Decode(d, ChildOffset(d, s, i)).value.Atom?
      {
        assert Denotes(d, ChildOffset(d, s, i), t.children[i]) && t.children[i].Leaf?;
      }
    }
  }

  /** The offsets of the object area not passed yet. */
  ghost function Unseen(d: Doc, above: set<nat>): set<nat> {
    set o | 8 <= o < d.tr.offsetTableOffset && o !in above
  }

  lemma FewerUnseen(d: Doc, above: set<nat>, off: nat)
    requires 8 <= off < d.tr.offsetTableOffset && off !in above
    ensures Unseen(d, above + {off}) < Unseen(d, above)
  {
    assert off in Unseen(d, above) && off !in Unseen(d, above + {off});
  }

  ghost predicate SoundBelow(d: Doc, off: nat)
    requires Checked(d)
  {
    forall b :: ReachesOrIs(d, off, b) ==> Sound(d, b)
  }

  ghost predicate CameFrom(d: Doc, above: set<nat>, off: nat)
    requires Checked(d)
  {
    forall a :: a in above ==> Reaches(d, a, off)
  }

  /** What holds above and below a container holds above and below its child. */
  lemma SoundChild(d: Doc, off: nat, s: Shallow, i: nat, above: set<nat>)
    requires Checked(d) && Decode(d, off) == Some(s) && s.Refs? && i < s.count
    requires SoundBelow(d, off) && CameFrom(d, above, off)
    ensures off !in above
    ensures s.kind.Dict? && i < s.count / 2 ==>
              Decode(d, ChildOffset(d, s, i)).Some? && Decode(d, ChildOffset(d, s, i)).value.Atom?
    ensures SoundBelow(d, ChildOffset(d, s, i)) && CameFrom(d, above + {off}, ChildOffset(d, s, i))
  {
    hide Checked, Decode, ChildOffset, Reaches;
    var child := ChildOffset(d, s, i);
    assert Sound(d, off) by { assert ReachesOrIs(d, off, off); }
    assert Edge(d, off, child);
    EdgeReaches(d, off, child);
    forall b | ReachesOrIs(d, child, b) ensures Sound(d, b) {
      if b != child {
        EdgeThenReaches(d, off, child, b);
      }
      assert ReachesOrIs(d, off, b);
    }
    forall a | a in above + {off} ensures Reaches(d, a, child) {
      if a != off {
        ReachesEdge(d, a, off, child);
      }
    }
  }

  /** An atom denotes only a leaf. */
  lemma AtomLeaf(d: Doc, off: nat, t: Plist)
    requires Checked(d) && Denotes(d, off, t) && Decode(d, off).Some? && Decode(d, off).value.Atom?
    ensures t.Leaf?
  {
  }

  lemma {:induction false} ChooseTrees(d: Doc, s: Shallow, n: nat) returns (ts: seq<Plist>)
    requires Checked(d) && s.Refs? && n <= s.count
    requires forall i :: 0 <= i < n ==> Meaning(d, ChildOffset(d, s, i)).Some?
    ensures |ts| == n && forall i :: 0 <= i < n ==> Denotes(d, ChildOffset(d, s, i), ts[i])
  {
    hide Checked, ChildOffset, Denotes, Meaning;
    ts := [];
    if n > 0 {
      ts := ChooseTrees(d, s, n - 1);
      ts := ts + [Meaning(d, ChildOffset(d, s, n - 1)).value];
    }
  }

  /** A container whose children all denote trees, its keys scalars, denotes a tree. */
  lemma ContainerDenotes(d: Doc, off: nat)
    requires Checked(d) && Sound(d, off) && Decode(d, off).value.Refs?
    requires var s := Decode(d, off).value; forall i :: 0 <= i < s.count ==> Meaning(d, ChildOffset(d, s, i)).Some?
    ensures Meaning(d, off).Some?
  {
    var s := Decode(d, off).value;
    hide Checked, Decode, ChildOffset, Meaning, Reaches;
    var ts := ChooseTrees(d, s, s.count);
    if s.kind.Dict? {
      forall i | 0 <= i < s.count / 2 ensures ts[i].Leaf? {
        AtomLeaf(d, ChildOffset(d, s, i), ts[i]);
      }
    }
    MeaningIs(d, off, Node(s.kind, ts));
  }

  /** Without cycles below it, a sound offset unfolds to a finite tree. */
  lemma {:induction false} SoundDenotes(d: Doc, off: nat, above: set<nat>)
    requires Checked(d) && SoundBelow(d, off) && CameFrom(d, above, off)
    ensures Meaning(d, off).Some?
    decreases Unseen(d, above)
  {
    assert Sound(d, off) by { assert ReachesOrIs(d, off, off); }
    var s := Decode(d, off).value;
    hide Checked, Decode, ChildOffset, Denotes, Meaning, Reaches, CameFrom, Unseen;
    if s.Atom? {
      AtomDenotes(d, off);
    } else {
      InObjects(d, off);
      forall i | 0 <= i < s.count ensures Meaning(d, ChildOffset(d, s, i)).Some? {
        SoundChild(d, off, s, i, above);
        FewerUnseen(d, above, off);
        SoundDenotes(d, ChildOffset(d, s, i), above + {off});
      }
      ContainerDenotes(d, off);
    }
  }

  lemma AtomDenotes(d: Doc, off: nat)
    requires Checked(d) && Decode(d, off).Some? && Decode(d, off).value.Atom?
    ensures Meaning(d, off).Some?
  {
    MeaningIs(d, off, Leaf(Decode(d, off).value.scalar));
  }

  lemma InObjects(d: Doc, off: nat)
    requires Checked(d) && Decode(d, off).Some?
    ensures 8 <= off < d.tr.offsetTableOffset
  {
  }

  // ---------- Parsing a byte string

  /** The value of a whole byte string. */
  ghost function ParsedValue(data: seq<byte>): (r: Option<Plist>) {
    if WellFormed(data) then Meaning(Doc(data, TopOf(data).tr), TopOf(data).offset) else None
  }

  /** `__CFTryParseBinaryPlist` on data at address `base`, reading immutably. */
  method TryParse(base: nat, data: seq<byte>) returns (r: Option<Plist>)
    requires base + |data| < TWO64
    ensures r == ParsedValue(data)
  {
    if |data| < 8 { return None; }
    var top := GetTopLevelInfo(base, data);
    if top.None? { return None; }
    var reader := new Reader(Doc(data, top.value.tr), true);
    r := reader.CreateObject(top.value.offset, null, 0);
  }
}
