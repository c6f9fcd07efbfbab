/**
  Object graphs, and flattening one with sharing into a numbered list: which objects are
  listed, in what order and under which number.
 */
module PlistFlatten {
  import opened Machine
  import opened PlistFormat
  import opened PlistEncode

  // ---------- Object graphs

  type Ref = nat  // the address of an object

  datatype Obj = Plain(scalar: Scalar) | Holder(kind: Kind, refs: seq<Ref>)

  type Graph = map<Ref, Obj>

  /** The object at `r` is finite below and unfolds to the tree `t`. */
  ghost predicate Unfolds(g: Graph, r: Ref, t: Plist)
    decreases t
  {
    && r in g
    && match g[r]
       case Plain(v) => ProperScalar(v) && t == Leaf(v)
       case Holder(kind, refs) =>
         && t.Node? && t.kind == kind && |t.children| == |refs|
         && (kind.Dict? ==> |refs| % 2 == 0)
         && forall i :: 0 <= i < |refs| ==> Unfolds(g, refs[i], t.children[i])
  }

  /** Object types the writer knows. */
  predicate WritableObj(o: Obj) {
    match o
    case Plain(v) => WritableScalar(v)
    case Holder(kind, _) => !kind.Set?
  }

  predicate Writable(t: Plist) {
    match t
    case Leaf(v) => WritableScalar(v)
    case Node(kind, children) => !kind.Set? && forall i :: 0 <= i < |children| ==> Writable(children[i])
  }

  /** The types `_flattenPlist` uniques. */
  predicate Uniqued(o: Obj) {
    o.Plain? && (o.scalar.Text? || o.scalar.Int? || o.scalar.Real? || o.scalar.Date? || o.scalar.Data?)
  }

  // ---------- Flattening

  /** Every numbered object has an index at which the list holds an object with its contents. */
  ghost predicate Numbered(g: Graph, list: seq<Ref>, table: map<Ref, nat>) {
    forall x :: x in table ==>
      x in g && table[x] < |list| && list[table[x]] in g && g[list[table[x]]] == g[x]
  }

  ghost predicate ChildrenNumbered(g: Graph, r: Ref, table: map<Ref, nat>) {
    && r in g
    && (g[r].Holder? && !g[r].kind.Set? ==> forall k :: 0 <= k < |g[r].refs| ==> g[r].refs[k] in table)
  }

  /** All children of the objects from position `n` on are numbered. */
  ghost predicate ClosedFrom(g: Graph, list: seq<Ref>, table: map<Ref, nat>, n: nat) {
    forall i :: n <= i < |list| ==> ChildrenNumbered(g, list[i], table)
  }

  ghost predicate Extends(list: seq<Ref>, table: map<Ref, nat>, list': seq<Ref>, table': map<Ref, nat>) {
    list <= list' && forall x :: x in table ==> x in table' && table'[x] == table[x]
  }

  ghost predicate WritableFrom(g: Graph, list: seq<Ref>, n: nat) {
    forall i :: n <= i < |list| ==> list[i] in g && WritableObj(g[list[i]])
  }

  /** What flattening a whole graph yields. */
  ghost predicate Flattened(g: Graph, root: Ref, list: seq<Ref>, table: map<Ref, nat>) {
    && list != [] && list[0] == root && root in table && table[root] == 0
    && Numbered(g, list, table) && ClosedFrom(g, list, table, 0)
  }

  /** A bound on the bytes the listed objects take. */
  ghost function ObjBulk(g: Graph, r: Ref): nat {
    if r !in g then 0
    else match g[r]
      case Plain(v) => ScalarBulk(v)
      case Holder(_, refs) => NodeBulk(|refs|)
  }

  ghost function ListBulk(g: Graph, list: seq<Ref>): nat {
    if list == [] then 0 else ListBulk(g, list[..|list| - 1]) + ObjBulk(g, list[|list| - 1])
  }

  /** No more was appended than `nodes` objects of `bulk` bytes. */
  ghost predicate Within(g: Graph, list: seq<Ref>, list': seq<Ref>, nodes: nat, bulk: nat) {
    |list'| <= |list| + nodes && ListBulk(g, list') <= ListBulk(g, list) + bulk
  }

  lemma OneAppended(g: Graph, list: seq<Ref>, r: Ref)
    ensures ListBulk(g, list + [r]) == ListBulk(g, list) + ObjBulk(g, r)
  {
    assert (list + [r])[..|list|] == list;
  }

  /** The nodes and bytes below the root of a tree, as far as they are listed. */
  ghost function SizeBelow(t: Plist): nat {
    if t.Node? then SizeAll(t.children) else 0
  }

  ghost function BulkBelow(t: Plist): nat {
    if t.Node? then BulkAll(t.children) else 0
  }

  lemma NothingAdded(g: Graph, list: seq<Ref>, t: Plist)
    ensures Within(g, list, list, SizeBelow(t), BulkBelow(t))
  {
  }

  /** A root and what is below it. */
  lemma NodeWithin(g: Graph, r: Ref, t: Plist, list: seq<Ref>, list': seq<Ref>)
    requires Unfolds(g, r, t) && Within(g, list + [r], list', SizeBelow(t), BulkBelow(t))
    ensures Within(g, list, list', Size(t), Bulk(t))
  {
    hide ListBulk, SizeAll, BulkAll, ScalarBulk, NodeBulk;
    OneAppended(g, list, r);
  }

  lemma ClosedFromExtends(g: Graph, list: seq<Ref>, table: map<Ref, nat>, list': seq<Ref>, table': map<Ref, nat>, n: nat)
    requires ClosedFrom(g, list, table, n) && Extends(list, table, list', table')
    requires ClosedFrom(g, list', table', |list|)
    ensures ClosedFrom(g, list', table', n)
  {
    forall i | n <= i < |list'| ensures ChildrenNumbered(g, list'[i], table') {
      if i < |list| {
        assert ChildrenNumbered(g, list[i], table);
      }
    }
  }

  lemma NothingYet(g: Graph, list: seq<Ref>, table: map<Ref, nat>, children: seq<Plist>)
    ensures ClosedFrom(g, list, table, |list|) && WritableFrom(g, list, |list|)
    ensures Within(g, list, list, SizeAll(children[..0]), BulkAll(children[..0]))
  {
  }

  lemma WithinMore(g: Graph, list: seq<Ref>, list': seq<Ref>, list'': seq<Ref>, children: seq<Plist>, idx: nat)
    requires idx < |children| && Within(g, list, list', SizeAll(children[..idx]), BulkAll(children[..idx]))
    requires Within(g, list', list'', Size(children[idx]), Bulk(children[idx]))
    ensures Within(g, list, list'', SizeAll(children[..idx + 1]), BulkAll(children[..idx + 1]))
  {
    hide ListBulk;
    assert children[..idx + 1][..idx] == children[..idx];
  }

  lemma WritableMore(g: Graph, list: seq<Ref>, list': seq<Ref>, n: nat)
    requires list <= list'
    ensures WritableFrom(g, list, n) && WritableFrom(g, list', |list|) ==> WritableFrom(g, list', n)
  {
  }

  // ---------- What the list is

  /** Strings, numbers, dates and data. */
  predicate IsValue(o: Obj) {
    match o
    case Holder(_, _) => false
    case Plain(v) =>
      match v
      case Text(_) => true
      case Int(_, _) => true
      case Real(_) => true
      case Date(_) => true
      case Data(_) => true
      case _ => false
  }

  /** Every visit of a graph, parents before children; what is shared is visited as often as it is met. */
  ghost function Visits(g: Graph, r: Ref, t: Plist): seq<Ref>
    requires Unfolds(g, r, t)
    decreases t, 1
  {
    [r] + if t.Node? && !t.kind.Set? then VisitsAll(g, g[r].refs, t.children) else []
  }

  ghost function VisitsAll(g: Graph, refs: seq<Ref>, ts: seq<Plist>): seq<Ref>
    requires |refs| == |ts| && forall i :: 0 <= i < |refs| ==> Unfolds(g, refs[i], ts[i])
    decreases ts, 0
  {
    if refs == [] then []
    else var n := |refs| - 1; VisitsAll(g, refs[..n], ts[..n]) + Visits(g, refs[n], ts[n])
  }

  /** A value the list already has, as far as the uniquing set can tell. */
  ghost predicate Repeats(g: Graph, same: (Ref, Ref) -> bool, list: seq<Ref>, r: Ref) {
    r in g && IsValue(g[r]) && exists u :: u in list && u in g && IsValue(g[u]) && same(u, r)
  }

  /** The list with those of the visits appended that are no repeated values. */
  ghost function Kept(g: Graph, same: (Ref, Ref) -> bool, list: seq<Ref>, visits: seq<Ref>): seq<Ref> {
    if visits == [] then list
    else
      var n := |visits| - 1;
      var before := Kept(g, same, list, visits[..n]);
      if Repeats(g, same, before, visits[n]) then before else before + [visits[n]]
  }

  lemma {:induction false} KeptCat(g: Graph, same: (Ref, Ref) -> bool, list: seq<Ref>, a: seq<Ref>, b: seq<Ref>)
    ensures Kept(g, same, list, a + b) == Kept(g, same, Kept(g, same, list, a), b)
  {
    hide Repeats;
    if b == [] {
      assert a + b == a;
    } else {
      var n := |b| - 1;
      assert (a + b)[..|a| + n] == a + b[..n];
      KeptCat(g, same, list, a, b[..n]);
    }
  }

  lemma KeptOne(g: Graph, same: (Ref, Ref) -> bool, list: seq<Ref>, r: Ref)
    ensures Kept(g, same, list, [r]) == if Repeats(g, same, list, r) then list else list + [r]
  {
    assert [r][..0] == [];
  }

  /** No two places of the list hold values that are the same. */
  ghost predicate NoneTwice(g: Graph, same: (Ref, Ref) -> bool, list: seq<Ref>) {
    forall i, j :: 0 <= i < j < |list| && list[i] in g && list[j] in g && IsValue(g[list[i]]) && IsValue(g[list[j]]) ==>
      !same(list[i], list[j])
  }

  lemma NoneTwiceMore(g: Graph, same: (Ref, Ref) -> bool, list: seq<Ref>, r: Ref)
    requires NoneTwice(g, same, list) && !Repeats(g, same, list, r)
    ensures NoneTwice(g, same, list + [r])
  {
    forall i | 0 <= i < |list| && list[i] in g && r in g && IsValue(g[list[i]]) && IsValue(g[r])
      ensures !same(list[i], r)
    {
      assert list[i] in list;
    }
  }

  lemma {:induction false} KeptOnce(g: Graph, same: (Ref, Ref) -> bool, visits: seq<Ref>)
    ensures NoneTwice(g, same, Kept(g, same, [], visits))
  {
    hide NoneTwice, Repeats;
    if visits == [] {
      assert NoneTwice(g, same, []) by { NoneAtAll(g, same); }
    } else {
      var n := |visits| - 1;
      KeptOnce(g, same, visits[..n]);
      if !Repeats(g, same, Kept(g, same, [], visits[..n]), visits[n]) {
        NoneTwiceMore(g, same, Kept(g, same, [], visits[..n]), visits[n]);
      }
    }
  }

  lemma NoneAtAll(g: Graph, same: (Ref, Ref) -> bool)
    ensures NoneTwice(g, same, [])
  {
  }

  /** No two places of the list hold strings, numbers, dates or data that are the same. */
  lemma KeptDistinct(g: Graph, same: (Ref, Ref) -> bool, visits: seq<Ref>)
    requires SoundEquality(g, same)
    ensures var list := Kept(g, same, [], visits);
      forall i, j :: 0 <= i < j < |list| && list[i] in g && list[j] in g && g[list[j]].Plain?
                     && (var v := g[list[j]].scalar; v.Text? || v.Int? || v.Real? || v.Date? || v.Data?) ==>
        !same(list[i], list[j])
  {
    hide Kept;
    KeptOnce(g, same, visits);
  }

  // ---------- Where an object is found

  ghost predicate FirstAt(list: seq<Ref>, x: Ref, i: nat) {
    i < |list| && list[i] == x && x !in list[..i]
  }

  /** An object's number is its first place in the list, or that of the value it repeats. */
  ghost predicate Placed(g: Graph, same: (Ref, Ref) -> bool, list: seq<Ref>, x: Ref, i: nat) {
    if x in list then FirstAt(list, x, i)
    else x in g && IsValue(g[x]) && exists u :: u in list && u in g && IsValue(g[u]) && same(u, x) && FirstAt(list, u, i)
  }

  ghost predicate AllPlaced(g: Graph, same: (Ref, Ref) -> bool, list: seq<Ref>, table: map<Ref, nat>) {
    && (forall x :: x in list ==> x in table)
    && forall x :: x in table ==> Placed(g, same, list, x, table[x])
  }

  /** The uniquing set has the values of the list. */
  ghost predicate SetOf(g: Graph, list: seq<Ref>, values: set<Ref>) {
    forall u :: u in values <==> u in list && u in g && IsValue(g[u])
  }

  lemma FirstStays(list: seq<Ref>, r: Ref, x: Ref, i: nat)
    requires FirstAt(list, x, i)
    ensures FirstAt(list + [r], x, i)
  {
    assert (list + [r])[..i] == list[..i];
  }

  /** Appending an object that is not the repetition of a value keeps every number. */
  lemma PlacedMore(g: Graph, same: (Ref, Ref) -> bool, list: seq<Ref>, table: map<Ref, nat>, r: Ref)
    requires AllPlaced(g, same, list, table) && !Repeats(g, same, list, r)
    ensures AllPlaced(g, same, list + [r], if r in table then table else table[r := |list|])
  {
    hide FirstAt, Repeats;
    var list', table' := list + [r], if r in table then table else table[r := |list|];
    forall x | x in table' ensures Placed(g, same, list', x, table'[x]) {
      PlacedOne(g, same, list, table, r, x);
    }
  }

  lemma PlacedOne(g: Graph, same: (Ref, Ref) -> bool, list: seq<Ref>, table: map<Ref, nat>, r: Ref, x: Ref)
    requires AllPlaced(g, same, list, table) && !Repeats(g, same, list, r)
    requires x in table || x == r
    ensures Placed(g, same, list + [r], x, if x in table then table[x] else |list|)
  {
    var list' := list + [r];
    if x in list {
      FirstStays(list, r, x, table[x]);
    } else if x == r {
      assert list'[..|list|] == list;
    } else {
      var u :| u in list && u in g && IsValue(g[u]) && same(u, x) && FirstAt(list, u, table[x]);
      FirstStays(list, r, u, table[x]);
    }
  }

  class Flattener {
    const g: Graph
    const same: (Ref, Ref) -> bool  // the equality of the uniquing set
    var objlist: seq<Ref>
    var objtable: map<Ref, nat>
    var uniquingset: set<Ref>

    constructor (g: Graph, same: (Ref, Ref) -> bool)
      requires SoundEquality(g, same)
      ensures Valid() && this.g == g && this.same == same && objlist == [] && objtable == map[]
    {
      this.g, this.same := g, same;
      objlist, objtable, uniquingset := [], map[], {};
    }

    ghost predicate Valid()
      reads this
    {
      && SoundEquality(g, same)
      && Numbered(g, objlist, objtable)
      && AllPlaced(g, same, objlist, objtable)
      && SetOf(g, objlist, uniquingset)
    }

    /**
      `_flattenPlist`. Containers, booleans and UIDs are appended once per visit and keep
      their first number; a value is appended unless the uniquing set has it.
     */
    method Flatten(r: Ref, ghost t: Plist)
      requires Valid() && Unfolds(g, r, t)
      modifies this
      ensures Valid()
      ensures objlist == Kept(g, same, old(objlist), Visits(g, r, t))
      ensures old(objlist) == [] ==>
        forall i, j :: 0 <= i < j < |objlist| && objlist[i] in g && objlist[j] in g && g[objlist[j]].Plain?
                       && (var v := g[objlist[j]].scalar; v.Text? || v.Int? || v.Real? || v.Date? || v.Data?) ==>
          !same(objlist[i], objlist[j])
      ensures Extends(old(objlist), old(objtable), objlist, objtable)
      ensures r in objtable
      ensures old(objtable) == map[] ==>
        |objlist| > old(|objlist|) && objlist[old(|objlist|)] == r && objtable[r] == old(|objlist|)
      ensures ClosedFrom(g, objlist, objtable, old(|objlist|))
      ensures Writable(t) ==> WritableFrom(g, objlist, old(|objlist|))
      ensures Within(g, old(objlist), objlist, Size(t), Bulk(t))
      decreases t, 2
    {
      hide SoundEquality, Numbered, AllPlaced, SetOf, Repeats, Kept, Visits;
      hide ClosedFrom, WritableFrom, Within, Size, Bulk, Unfolds;
      KeptDistinct(g, same, Visits(g, r, t));
      UniquedIs(g, r, t);
      if Uniqued(g[r]) {
        OneValue(g, same, objlist, r, t);
        if exists u :: u in uniquingset && same(u, r) {
          var unique :| unique in uniquingset && same(unique, r);
          Renumber(r, unique, t);
        } else {
          NotRepeated(g, same, objlist, uniquingset, r);
          Enlist(r, t);
          uniquingset := uniquingset + {r};
        }
      } else {
        AppendNew(r, t);
      }
    }

    /** A value already in the set: its number is that of the one there. */
    method Renumber(r: Ref, unique: Ref, ghost t: Plist)
      requires Valid() && Unfolds(g, r, t) && IsValue(g[r]) && unique in uniquingset && same(unique, r)
      modifies this`objtable
      ensures Valid() && r in objtable && Repeats(g, same, objlist, r)
      ensures Extends(objlist, old(objtable), objlist, objtable) && old(objtable) != map[]
      ensures ClosedFrom(g, objlist, objtable, |objlist|) && WritableFrom(g, objlist, |objlist|)
      ensures Within(g, objlist, objlist, Size(t), Bulk(t))
    {
      if unique != r && r !in objtable {
        objtable := objtable[r := objtable[unique]];
      }
    }

    /** A new entry, with a number if it has none. */
    method Enlist(r: Ref, ghost t: Plist)
      requires SoundEquality(g, same) && Numbered(g, objlist, objtable) && AllPlaced(g, same, objlist, objtable)
      requires Unfolds(g, r, t) && !Repeats(g, same, objlist, r)
      modifies this`objlist, this`objtable
      ensures Numbered(g, objlist, objtable) && AllPlaced(g, same, objlist, objtable)
      ensures objlist == old(objlist) + [r]
      ensures Extends(old(objlist), old(objtable), objlist, objtable) && r in objtable
      ensures old(objtable) == map[] ==> objtable[r] == old(|objlist|)
      ensures old(SetOf(g, objlist, uniquingset)) ==>
                SetOf(g, objlist, if IsValue(g[r]) then uniquingset + {r} else uniquingset)
      ensures t.Leaf? ==>
        && ClosedFrom(g, objlist, objtable, old(|objlist|)) && (Writable(t) ==> WritableFrom(g, objlist, old(|objlist|)))
        && Within(g, old(objlist), objlist, Size(t), Bulk(t))
    {
      hide AllPlaced, Repeats, Within;
      PlacedMore(g, same, objlist, objtable, r);
      NothingAdded(g, objlist + [r], t);
      NodeWithin(g, r, t, objlist, objlist + [r]);
      var refnum := |objlist|;
      objlist := objlist + [r];
      if r !in objtable {
        objtable := objtable[r := refnum];
      }
    }

    /** Anything but a value: a new entry, then the children. */
    method AppendNew(r: Ref, ghost t: Plist)
      requires Valid() && Unfolds(g, r, t) && !IsValue(g[r])
      modifies this
      ensures Valid()
      ensures objlist == Kept(g, same, old(objlist), Visits(g, r, t))
      ensures Extends(old(objlist), old(objtable), objlist, objtable)
      ensures r in objtable
      ensures old(objtable) == map[] ==>
        |objlist| > old(|objlist|) && objlist[old(|objlist|)] == r && objtable[r] == old(|objlist|)
      ensures ClosedFrom(g, objlist, objtable, old(|objlist|))
      ensures Writable(t) ==> WritableFrom(g, objlist, old(|objlist|))
      ensures Within(g, old(objlist), objlist, Size(t), Bulk(t))
      decreases t, 1
    {
      hide SoundEquality, Numbered, AllPlaced, SetOf, Kept, Visits, Size, Bulk, SizeAll, BulkAll, Within;
      NothingAdded(g, objlist + [r], t);
      KeptOne(g, same, objlist, r);
      VisitsHere(g, r, t);
      Enlist(r, t);
      if g[r].Holder? && !g[r].kind.Set? {
        KeptCat(g, same, old(objlist), [r], VisitsAll(g, g[r].refs, t.children));
        FlattenChildren(r, g[r].refs, t);
      }
      NodeWithin(g, r, t, old(objlist), objlist);
    }

    method FlattenChildren(r: Ref, refs: seq<Ref>, ghost t: Plist)
      requires Valid() && t.Node? && |t.children| == |refs|
      requires forall i :: 0 <= i < |refs| ==> Unfolds(g, refs[i], t.children[i])
      modifies this
      ensures Valid()
      ensures objlist == Kept(g, same, old(objlist), VisitsAll(g, refs, t.children))
      ensures Extends(old(objlist), old(objtable), objlist, objtable)
      ensures forall i :: 0 <= i < |refs| ==> refs[i] in objtable
      ensures ClosedFrom(g, objlist, objtable, old(|objlist|))
      ensures Writable(t) ==> WritableFrom(g, objlist, old(|objlist|))
      ensures Within(g, old(objlist), objlist, SizeAll(t.children), BulkAll(t.children))
      decreases t, 0
    {
      hide ClosedFrom, Within, WritableFrom, Size, SizeAll, Bulk, BulkAll, SoundEquality, Numbered, Unfolds, AllPlaced, SetOf,
        Kept, Visits, VisitsAll;
      NothingYet(g, objlist, objtable, t.children);
      NoVisits(g, same, objlist, refs, t.children);
      var idx := 0;
      while idx < |refs|
        invariant 0 <= idx <= |refs|
        invariant Valid()
        invariant objlist == Kept(g, same, old(objlist), VisitsAll(g, refs[..idx], t.children[..idx]))
        invariant Extends(old(objlist), old(objtable), objlist, objtable)
        invariant forall i :: 0 <= i < idx ==> refs[i] in objtable
        invariant ClosedFrom(g, objlist, objtable, old(|objlist|))
        invariant Writable(t) ==> WritableFrom(g, objlist, old(|objlist|))
        invariant Within(g, old(objlist), objlist, SizeAll(t.children[..idx]), BulkAll(t.children[..idx]))
      {
        ghost var list0, table0 := objlist, objtable;
        MoreVisits(g, same, old(objlist), refs, t.children, idx);
        Flatten(refs[idx], t.children[idx]);
        ClosedFromExtends(g, list0, table0, objlist, objtable, old(|objlist|));
        WithinMore(g, old(objlist), list0, objlist, t.children, idx);
        WritableMore(g, list0, objlist, old(|objlist|));
        idx := idx + 1;
      }
      assert t.children[..idx] == t.children && refs[..idx] == refs;
    }
  }

  lemma UniquedIs(g: Graph, r: Ref, t: Plist)
    requires Unfolds(g, r, t)
    ensures r in g && (Uniqued(g[r]) <==> IsValue(g[r]))
  {
  }

  lemma OneValue(g: Graph, same: (Ref, Ref) -> bool, list: seq<Ref>, r: Ref, t: Plist)
    requires Unfolds(g, r, t) && IsValue(g[r])
    ensures t.Leaf? && Kept(g, same, list, Visits(g, r, t)) == if Repeats(g, same, list, r) then list else list + [r]
  {
    KeptOne(g, same, list, r);
  }

  lemma NotRepeated(g: Graph, same: (Ref, Ref) -> bool, list: seq<Ref>, values: set<Ref>, r: Ref)
    requires SetOf(g, list, values) && !exists u :: u in values && same(u, r)
    ensures !Repeats(g, same, list, r)
  {
  }

  lemma VisitsHere(g: Graph, r: Ref, t: Plist)
    requires Unfolds(g, r, t)
    ensures Visits(g, r, t) ==
            if g[r].Holder? && !g[r].kind.Set? then [r] + VisitsAll(g, g[r].refs, t.children) else [r]
  {
  }

  lemma NoVisits(g: Graph, same: (Ref, Ref) -> bool, list: seq<Ref>, refs: seq<Ref>, ts: seq<Plist>)
    requires |refs| == |ts| && forall i :: 0 <= i < |refs| ==> Unfolds(g, refs[i], ts[i])
    ensures Kept(g, same, list, VisitsAll(g, refs[..0], ts[..0])) == list
  {
  }

  lemma MoreVisits(g: Graph, same: (Ref, Ref) -> bool, list: seq<Ref>, refs: seq<Ref>, ts: seq<Plist>, idx: nat)
    requires |refs| == |ts| && forall i :: 0 <= i < |refs| ==> Unfolds(g, refs[i], ts[i])
    requires idx < |refs|
    ensures Kept(g, same, list, VisitsAll(g, refs[..idx + 1], ts[..idx + 1])) ==
            Kept(g, same, Kept(g, same, list, VisitsAll(g, refs[..idx], ts[..idx])), Visits(g, refs[idx], ts[idx]))
  {
    hide Kept, Visits, Unfolds;
    assert refs[..idx + 1][..idx] == refs[..idx] && ts[..idx + 1][..idx] == ts[..idx];
    KeptCat(g, same, list, VisitsAll(g, refs[..idx], ts[..idx]), Visits(g, refs[idx], ts[idx]));
  }

  /** Scalars the uniquing set takes for equal have equal contents, as identical ones do. */
  ghost predicate SoundEquality(g: Graph, same: (Ref, Ref) -> bool) {
    forall a, b :: a in g && b in g && g[b].Plain? && same(a, b) ==> g[a] == g[b]
  }
}
