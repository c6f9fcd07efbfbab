/** CFBinaryHeap: a priority queue in an array, kept by moving a hole. */
module BinaryHeap {
  import opened Machine
  import opened Ordering

  function Parent(i: nat): nat
    requires i > 0
  {
    (i - 1) / 2
  }

  // ---------- Heap order

  /** Place `i` is not below its parent. */
  ghost predicate InOrder(cmp: Comparator, g: seq<Item>, i: nat)
    requires 0 < i < |g|
  {
    cmp(g[Parent(i)], g[i]) <= 0
  }

  ghost predicate IsHeap(cmp: Comparator, g: seq<Item>) {
    forall i :: 0 < i < |g| ==> InOrder(cmp, g, i)
  }

  /** The children of place `idx` are not below its parent. */
  ghost predicate Spans(cmp: Comparator, g: seq<Item>, idx: nat)
    requires idx < |g|
  {
    forall i :: 0 < i < |g| && Parent(i) == idx && idx > 0 ==> cmp(g[Parent(idx)], g[i]) <= 0
  }

  /** Only place `idx` may be below its parent. */
  ghost predicate Rising(cmp: Comparator, g: seq<Item>, idx: nat)
    requires idx < |g|
  {
    (forall i :: 0 < i < |g| && i != idx ==> InOrder(cmp, g, i)) && Spans(cmp, g, idx)
  }

  /** Only the children of place `idx` may be below it. */
  ghost predicate Sinking(cmp: Comparator, g: seq<Item>, idx: nat)
    requires idx < |g|
  {
    (forall i :: 0 < i < |g| && Parent(i) != idx ==> InOrder(cmp, g, i)) && Spans(cmp, g, idx)
  }

  /** The root of a heap is least. */
  lemma {:induction false} RootLeast(cmp: Comparator, g: seq<Item>, i: nat)
    requires Orders(cmp) && IsHeap(cmp, g) && i < |g|
    ensures cmp(g[0], g[i]) <= 0
  {
    if i > 0 {
      RootLeast(cmp, g, Parent(i));
      assert InOrder(cmp, g, i);
      OrderTrans(cmp, g[0], g[Parent(i)], g[i]);
    }
  }

  /** Adding at the end: the new value rises from there. */
  lemma RiseStart(cmp: Comparator, h: seq<Item>, value: Item)
    requires IsHeap(cmp, h)
    ensures Rising(cmp, h + [value], |h|)
  {
    var g := h + [value];
    forall i | 0 < i < |h| ensures InOrder(cmp, g, i) {
      assert InOrder(cmp, h, i);
    }
  }

  /** Moving the parent down into the hole lets the value rise one level. */
  lemma Rise(cmp: Comparator, g: seq<Item>, idx: nat)
    requires Orders(cmp) && 0 < idx < |g| && Rising(cmp, g, idx) && cmp(g[Parent(idx)], g[idx]) > 0
    ensures Rising(cmp, g[idx := g[Parent(idx)]][Parent(idx) := g[idx]], Parent(idx))
  {
    hide Orders, Rising;
    var p := Parent(idx);
    var g' := g[idx := g[p]][p := g[idx]];
    forall i | 0 < i < |g| && i != p ensures InOrder(cmp, g', i) {
      RiseOrder(cmp, g, idx, i);
    }
    RiseSpans(cmp, g, idx);
    RisingFrom(cmp, g', p);
  }

  lemma RisingFrom(cmp: Comparator, g: seq<Item>, idx: nat)
    requires idx < |g| && Spans(cmp, g, idx) && forall i :: 0 < i < |g| && i != idx ==> InOrder(cmp, g, i)
    ensures Rising(cmp, g, idx)
  {
  }

  lemma RiseOrder(cmp: Comparator, g: seq<Item>, idx: nat, i: nat)
    requires Orders(cmp) && 0 < idx < |g| && Rising(cmp, g, idx) && cmp(g[Parent(idx)], g[idx]) > 0
    requires 0 < i < |g| && i != Parent(idx)
    ensures InOrder(cmp, g[idx := g[Parent(idx)]][Parent(idx) := g[idx]], i)
  {
    var p := Parent(idx);
    if i == idx {
      assert cmp(g[idx], g[p]) < 0;
    } else if Parent(i) == p {
      assert InOrder(cmp, g, i);
      OrderTrans(cmp, g[idx], g[p], g[i]);
    } else if Parent(i) == idx {
      assert cmp(g[p], g[i]) <= 0;
    } else {
      assert InOrder(cmp, g, i);
    }
  }

  lemma RiseSpans(cmp: Comparator, g: seq<Item>, idx: nat)
    requires Orders(cmp) && 0 < idx < |g| && Rising(cmp, g, idx) && cmp(g[Parent(idx)], g[idx]) > 0
    ensures Spans(cmp, g[idx := g[Parent(idx)]][Parent(idx) := g[idx]], Parent(idx))
  {
    hide Orders;
    var p := Parent(idx);
    var g' := g[idx := g[p]][p := g[idx]];
    forall i | 0 < i < |g| && Parent(i) == p && p > 0 ensures cmp(g'[Parent(p)], g'[i]) <= 0 {
      assert InOrder(cmp, g, p);
      if i != idx {
        assert InOrder(cmp, g, i);
        OrderTrans(cmp, g[Parent(p)], g[p], g[i]);
      }
    }
  }

  lemma Risen(cmp: Comparator, g: seq<Item>, idx: nat)
    requires idx < |g| && Rising(cmp, g, idx) && (idx > 0 ==> cmp(g[Parent(idx)], g[idx]) <= 0)
    ensures IsHeap(cmp, g)
  {
  }

  /** Taking the root: the last value sinks from its place. */
  lemma SinkStart(cmp: Comparator, h: seq<Item>)
    requires |h| > 1 && IsHeap(cmp, h)
    ensures Sinking(cmp, h[..|h| - 1][0 := h[|h| - 1]], 0)
  {
    var g := h[..|h| - 1][0 := h[|h| - 1]];
    forall i | 0 < i < |g| && Parent(i) != 0 ensures InOrder(cmp, g, i) {
      assert InOrder(cmp, h, i);
    }
  }

  /** `c` is a child of `idx` not above the other one. */
  ghost predicate LeastChild(cmp: Comparator, g: seq<Item>, idx: nat, c: nat)
    requires idx < |g|
  {
    && 0 < c < |g| && Parent(c) == idx
    && forall i :: 0 < i < |g| && Parent(i) == idx ==> cmp(g[c], g[i]) <= 0
  }

  /** Moving the least child up into the hole lets the value sink one level. */
  lemma Sink(cmp: Comparator, g: seq<Item>, idx: nat, c: nat)
    requires Orders(cmp) && idx < |g| && Sinking(cmp, g, idx) && LeastChild(cmp, g, idx, c) && cmp(g[c], g[idx]) <= 0
    ensures Sinking(cmp, g[idx := g[c]][c := g[idx]], c)
  {
    hide Orders, Sinking, LeastChild;
    ChildPlace(cmp, g, idx, c);
    var g' := g[idx := g[c]][c := g[idx]];
    forall i | 0 < i < |g| && Parent(i) != c ensures InOrder(cmp, g', i) {
      SinkOrder(cmp, g, idx, c, i);
    }
    SinkSpans(cmp, g, idx, c);
    SinkingFrom(cmp, g', c);
  }

  lemma ChildPlace(cmp: Comparator, g: seq<Item>, idx: nat, c: nat)
    requires idx < |g| && LeastChild(cmp, g, idx, c)
    ensures 0 < c < |g| && Parent(c) == idx
  {
  }

  lemma SinkOrder(cmp: Comparator, g: seq<Item>, idx: nat, c: nat, i: nat)
    requires Orders(cmp) && idx < |g| && Sinking(cmp, g, idx) && LeastChild(cmp, g, idx, c) && cmp(g[c], g[idx]) <= 0
    requires 0 < i < |g| && Parent(i) != c
    ensures InOrder(cmp, g[idx := g[c]][c := g[idx]], i)
  {
    hide Orders;
    if Parent(i) == idx {
      assert cmp(g[c], g[i]) <= 0;
    } else if i == idx {
      assert cmp(g[Parent(idx)], g[c]) <= 0;
    } else {
      assert InOrder(cmp, g, i);
    }
  }

  lemma SinkSpans(cmp: Comparator, g: seq<Item>, idx: nat, c: nat)
    requires idx < |g| && Sinking(cmp, g, idx) && LeastChild(cmp, g, idx, c)
    ensures Spans(cmp, g[idx := g[c]][c := g[idx]], c)
  {
    forall i | 0 < i < |g| && Parent(i) == c ensures cmp(g[c], g[i]) <= 0 {
      assert InOrder(cmp, g, i);
    }
  }

  lemma SinkingFrom(cmp: Comparator, g: seq<Item>, idx: nat)
    requires idx < |g| && Spans(cmp, g, idx) && forall i :: 0 < i < |g| && Parent(i) != idx ==> InOrder(cmp, g, i)
    ensures Sinking(cmp, g, idx)
  {
  }

  lemma Sunk(cmp: Comparator, g: seq<Item>, idx: nat)
    requires idx < |g| && Sinking(cmp, g, idx)
    requires forall i :: 0 < i < |g| && Parent(i) == idx ==> cmp(g[idx], g[i]) <= 0
    ensures IsHeap(cmp, g)
  {
  }

  /** A value exchanged between a place and the hole leaves the collection as it is. */
  lemma SameBag(g: seq<Item>, i: nat, j: nat)
    requires i < |g| && j < |g|
    ensures multiset(g[i := g[j]][j := g[i]]) == multiset(g)
  {
  }

  // ---------- Moving the hole

  /** The buckets with `value` in the hole. */
  ghost function Filled(b: seq<Item>, idx: nat, value: Item): seq<Item>
    requires idx < |b|
  {
    b[idx := value]
  }

  /** With `value` in the hole only it may be below its parent, and nothing else was added. */
  ghost predicate Lifting(cmp: Comparator, was: seq<Item>, b: seq<Item>, idx: nat, value: Item)
    requires idx < |b|
  {
    Rising(cmp, Filled(b, idx, value), idx) && multiset(Filled(b, idx, value)) == multiset(was) + multiset{value}
  }

  lemma LiftStart(cmp: Comparator, was: seq<Item>, b: seq<Item>, value: Item)
    requires IsHeap(cmp, was) && |b| == |was| + 1 && b[..|was|] == was
    ensures Lifting(cmp, was, b, |was|, value)
  {
    hide IsHeap, Rising;
    RiseStart(cmp, was, value);
    assert Filled(b, |was|, value) == was + [value];
  }

  lemma LiftStep(cmp: Comparator, was: seq<Item>, b: seq<Item>, idx: nat, value: Item)
    requires Orders(cmp) && 0 < idx < |b| && Lifting(cmp, was, b, idx, value) && cmp(b[Parent(idx)], value) > 0
    ensures Lifting(cmp, was, b[idx := b[Parent(idx)]], Parent(idx), value)
  {
    hide Orders, Rising;
    var g, p := Filled(b, idx, value), Parent(idx);
    Rise(cmp, g, idx);
    SameBag(g, idx, p);
    assert Filled(b[idx := b[p]], p, value) == g[idx := g[p]][p := g[idx]];
  }

  lemma LiftEnd(cmp: Comparator, was: seq<Item>, b: seq<Item>, idx: nat, value: Item)
    requires idx < |b| && Lifting(cmp, was, b, idx, value) && (idx > 0 ==> cmp(b[Parent(idx)], value) <= 0)
    ensures IsHeap(cmp, b[idx := value]) && multiset(b[idx := value]) == multiset(was) + multiset{value}
  {
    hide IsHeap, Rising;
    Risen(cmp, Filled(b, idx, value), idx);
  }

  /** The upward loop of `CFBinaryHeapAddValue`. */
  method SiftUp(buf: array<Item>, cnt: nat, value: Item, cmp: Comparator)
    requires cnt < buf.Length && Orders(cmp) && IsHeap(cmp, buf[..cnt])
    modifies buf
    ensures IsHeap(cmp, buf[..cnt + 1])
    ensures multiset(buf[..cnt + 1]) == multiset(old(buf[..cnt])) + multiset{value}
  {
    hide Orders, IsHeap, Lifting;
    ghost var was := buf[..cnt];
    assert buf[..cnt + 1][..cnt] == was;
    LiftStart(cmp, was, buf[..cnt + 1], value);
    var idx := cnt;
    while 0 < idx
      invariant 0 <= idx <= cnt && Lifting(cmp, was, buf[..cnt + 1], idx, value)
    {
      var pidx := Parent(idx);
      var item: Item := buf[pidx];
      if cmp(item, value) <= 0 {
        break;
      }
      ghost var b: seq<Item> := buf[..cnt + 1];
      LiftStep(cmp, was, b, idx, value);
      buf[idx] := item;
      assert buf[..cnt + 1] == b[idx := item];
      idx := pidx;
    }
    ghost var b: seq<Item> := buf[..cnt + 1];
    LiftEnd(cmp, was, b, idx, value);
    buf[idx] := value;
    assert buf[..cnt + 1] == b[idx := value];
  }

  /** The downward loop of `CFBinaryHeapRemoveMinimumValue`, for the buckets left in use. */
  method SiftDown(buf: array<Item>, cnt: nat, val: Item, cmp: Comparator)
    requires 0 < cnt <= buf.Length && Orders(cmp) && Sinking(cmp, Filled(buf[..cnt], 0, val), 0)
    modifies buf
    ensures IsHeap(cmp, buf[..cnt])
    ensures multiset(buf[..cnt]) == multiset(Filled(old(buf[..cnt]), 0, val))
  {
    hide Orders, IsHeap, Sinking, LeastChild;
    ghost var was := Filled(buf[..cnt], 0, val);
    var idx := 0;
    ghost var g := was;
    var cidx := 1;
    while cidx < cnt
      invariant 0 <= idx < cnt && cidx == 2 * idx + 1
      invariant Filled(buf[..cnt], idx, val) == g && Sinking(cmp, g, idx)
      invariant multiset(g) == multiset(was)
      decreases cnt - idx
    {
      var c := LowerChild(buf, cnt, idx, cmp, g);
      var item: Item := buf[c];
      assert g[c] == item && g[idx] == val;
      if cmp(item, val) > 0 {
        BelowChildren(cmp, g, idx, c);
        break;
      }
      Sink(cmp, g, idx, c);
      SameBag(g, idx, c);
      ghost var b: seq<Item> := buf[..cnt];
      buf[idx] := item;
      assert buf[..cnt] == b[idx := item];
      g := g[idx := item][c := val];
      idx := c;
      cidx := 2 * idx + 1;
    }
    NoChildren(cmp, g, idx);
    Sunk(cmp, g, idx);
    buf[idx] := val;
    assert buf[..cnt] == g;
  }

  /** The child the hole moves to. */
  method LowerChild(buf: array<Item>, cnt: nat, idx: nat, cmp: Comparator, ghost g: seq<Item>) returns (c: nat)
    requires 2 * idx + 1 < cnt <= buf.Length && Orders(cmp) && |g| == cnt
    requires forall i :: idx < i < cnt ==> g[i] == buf[i]
    ensures idx < c < cnt && LeastChild(cmp, g, idx, c)
  {
    c := 2 * idx + 1;
    if c + 1 < cnt {
      if cmp(buf[c], buf[c + 1]) > 0 {
        c := c + 1;
      }
    }
    TwoChildren(cmp, g, idx, c);
  }

  lemma TwoChildren(cmp: Comparator, g: seq<Item>, idx: nat, c: nat)
    requires Orders(cmp) && (c == 2 * idx + 1 || c == 2 * idx + 2) && c < |g|
    requires c == 2 * idx + 1 && c + 1 < |g| ==> cmp(g[c], g[c + 1]) <= 0
    requires c == 2 * idx + 2 ==> cmp(g[c - 1], g[c]) > 0
    ensures LeastChild(cmp, g, idx, c)
  {
    forall i | 0 < i < |g| && Parent(i) == idx ensures cmp(g[c], g[i]) <= 0 {
      assert i == 2 * idx + 1 || i == 2 * idx + 2;
      Reflexive(cmp, g[c]);
    }
  }

  lemma Reflexive(cmp: Comparator, a: Item)
    requires Orders(cmp)
    ensures cmp(a, a) == 0
  {
  }

  lemma BelowChildren(cmp: Comparator, g: seq<Item>, idx: nat, c: nat)
    requires Orders(cmp) && idx < |g| && LeastChild(cmp, g, idx, c) && cmp(g[c], g[idx]) > 0
    ensures forall i :: 0 < i < |g| && Parent(i) == idx ==> cmp(g[idx], g[i]) <= 0
  {
    forall i | 0 < i < |g| && Parent(i) == idx ensures cmp(g[idx], g[i]) <= 0 {
      OrderTrans(cmp, g[idx], g[c], g[i]);
    }
  }

  lemma NoChildren(cmp: Comparator, g: seq<Item>, idx: nat)
    ensures 2 * idx + 1 >= |g| && idx < |g| ==>
              forall i :: 0 < i < |g| && Parent(i) == idx ==> cmp(g[idx], g[i]) <= 0
  {
  }

  // ---------- The heap

  class Heap {
    const cmp: Comparator
    const retains: bool
    const releases: bool
    var count: nat
    var buckets: array<Item>
    ghost var retained: multiset<Item>
    ghost var released: multiset<Item>

    ghost function Contents(): seq<Item>
      reads this, buckets
      requires count <= buckets.Length
    {
      buckets[..count]
    }

    ghost predicate Owns(s: seq<Item>)
      reads `retained, `released
    {
      retains && releases ==> retained == released + multiset(s)
    }

    /** Every value is at least its parent, and a heap that retains and releases owns exactly its values. */
    ghost predicate Valid()
      reads this, buckets
    {
      && Orders(cmp) && count <= buckets.Length <= MAX_CAPACITY
      && IsHeap(cmp, Contents()) && Owns(Contents())
    }

    constructor (cmp: Comparator, retains: bool, releases: bool)
      requires Orders(cmp)
      ensures Valid() && count == 0 && fresh(buckets)
      ensures this.cmp == cmp && this.retains == retains && this.releases == releases
    {
      this.cmp, this.retains, this.releases := cmp, retains, releases;
      count := 0;
      buckets := new Item[RoundUpCapacity(1)];
      retained, released := multiset{}, multiset{};
    }

    /** `__CFBinaryHeapGrow`. */
    method Grow()
      requires Valid() && count + 1 < MAX_CAPACITY
      modifies this`buckets
      ensures Valid() && Contents() == old(Contents()) && count < buckets.Length && fresh(buckets)
    {
      hide Orders, IsHeap;
      var capacity := RoundUpCapacity(count + 1);
      RoundUpBound(count + 1);
      var bigger := new Item[capacity];
      forall i | 0 <= i < count {
        bigger[i] := buckets[i];
      }
      assert bigger[..count] == Contents();
      buckets := bigger;
    }

    /** `CFBinaryHeapAddValue`. */
    method AddValue(value: Item)
      requires Valid() && count + 1 < MAX_CAPACITY
      modifies this, buckets
      ensures Valid() && (buckets == old(buckets) || fresh(buckets))
      ensures multiset(Contents()) == multiset(old(Contents())) + multiset{value}
      ensures count == old(count) + 1
      ensures retained == if retains then old(retained) + multiset{value} else old(retained)
      ensures released == old(released)
    {
      hide Orders, IsHeap, Owns;
      if count == buckets.Length {
        Grow();
      }
      Place(value);
    }

    /** The upward loop in a store with room, and the value's retain. */
    method Place(value: Item)
      requires Valid() && count < buckets.Length
      modifies this`count, this`retained, buckets
      ensures Valid() && count == old(count) + 1
      ensures multiset(Contents()) == multiset(old(Contents())) + multiset{value}
      ensures retained == if retains then old(retained) + multiset{value} else old(retained)
    {
      hide Orders, IsHeap, Owns;
      ghost var was := Contents();
      SiftUp(buckets, count, value, cmp);
      count := count + 1;
      Retain(value, was, Contents());
    }

    /** Books a value the heap now holds. */
    ghost method Retain(value: Item, was: seq<Item>, now: seq<Item>)
      requires Owns(was) && multiset(now) == multiset(was) + multiset{value}
      modifies this`retained
      ensures Owns(now)
      ensures retained == if retains then old(retained) + multiset{value} else old(retained)
    {
      Booked(retained, released, multiset(was), value);
      if retains {
        retained := retained + multiset{value};
      }
    }

    /** `CFBinaryHeapGetMinimumIfPresent`. */
    method GetMinimumIfPresent() returns (present: bool, value: Item)
      requires Valid()
      ensures present <==> Contents() != []
      ensures present ==> value == Contents()[0] && forall i :: 0 <= i < count ==> cmp(value, Contents()[i]) <= 0
    {
      if count == 0 {
        return false, 0;
      }
      forall i | 0 <= i < count ensures cmp(buckets[0], Contents()[i]) <= 0 {
        RootLeast(cmp, Contents(), i);
      }
      return true, buckets[0];
    }

    /** `CFBinaryHeapRemoveMinimumValue`: exactly the root goes. */
    method RemoveMinimumValue()
      requires Valid()
      modifies this`count, this`released, buckets
      ensures Valid()
      ensures old(count) == 0 ==> Contents() == old(Contents()) && released == old(released)
      ensures old(count) > 0 ==> count == old(count) - 1
      ensures old(count) > 0 ==> multiset(old(Contents())) == multiset(Contents()) + multiset{old(Contents()[0])}
      ensures old(count) > 0 && releases ==> released == old(released) + multiset{old(Contents()[0])}
      ensures !releases ==> released == old(released)
    {
      hide Orders, IsHeap;
      var cnt := count;
      if cnt == 0 {
        return;
      }
      ghost var was := Contents();
      assert Owns(was);
      var root := buckets[0];
      TakeRoot(buckets, cnt, cmp);
      count := cnt - 1;
      Unbooked(retained, released, multiset(Contents()), root);
      if releases {
        released := released + multiset{root};
      }
    }

    /** `CFBinaryHeapCreateCopy`: a heap of the same values, filled one by one. */
    constructor Copy(heap: Heap)
      requires heap.Valid() && heap.count < MAX_CAPACITY
      ensures Valid() && fresh(buckets) && cmp == heap.cmp && count == heap.count
      ensures multiset(Contents()) == multiset(heap.Contents())
    {
      cmp, retains, releases := heap.cmp, heap.retains, heap.releases;
      count := 0;
      buckets := new Item[RoundUpCapacity(1)];
      retained, released := multiset{}, multiset{};
      new;
      EmptyHeap(cmp);
      assert Contents() == [];
      AddEach(heap.buckets[..heap.count]);
    }

    method AddEach(values: seq<Item>)
      requires Valid() && count + |values| < MAX_CAPACITY
      modifies this, buckets
      ensures Valid() && (buckets == old(buckets) || fresh(buckets)) && count == old(count) + |values|
      ensures multiset(Contents()) == multiset(old(Contents())) + multiset(values)
    {
      hide Orders, IsHeap, Owns;
      var idx := 0;
      while idx < |values|
        invariant 0 <= idx <= |values| && Valid() && count == old(count) + idx
        invariant buckets == old(buckets) || fresh(buckets)
        invariant multiset(Contents()) == multiset(old(Contents())) + multiset(values[..idx])
      {
        assert values[..idx + 1] == values[..idx] + [values[idx]];
        AddValue(values[idx]);
        idx := idx + 1;
      }
      assert values[..idx] == values;
    }
  }

  /** `CFBinaryHeapGetValues`: the values in order; the heap itself is not touched. */
  method GetValues(heap: Heap) returns (values: seq<Item>)
    requires heap.Valid() && heap.count < MAX_CAPACITY
    ensures Sorted(heap.cmp, values) && multiset(values) == multiset(heap.Contents())
    ensures forall i, j :: 0 <= i < j < |values| ==> heap.cmp(values[i], values[j]) <= 0
  {
    hide Orders, IsHeap, Sorted;
    values := [];
    NothingSorted(heap.cmp);
    var rest := new Heap.Copy(heap);
    while 0 < rest.count
      invariant rest.Valid() && fresh(rest) && fresh(rest.buckets) && rest.cmp == heap.cmp
      invariant Sorted(heap.cmp, values)
      invariant multiset(values) + multiset(rest.Contents()) == multiset(heap.Contents())
      invariant AllBelow(heap.cmp, values, rest.Contents())
      decreases rest.count
    {
      var _, value := rest.GetMinimumIfPresent();
      ghost var before := rest.Contents();
      rest.RemoveMinimumValue();
      NextSorted(heap.cmp, values, value, before, rest.Contents());
      values := values + [value];
    }
    assert rest.Contents() == [];
    SortedIs(heap.cmp, values);
  }

  lemma SortedIs(cmp: Comparator, s: seq<Item>)
    requires Sorted(cmp, s)
    ensures forall i, j :: 0 <= i < j < |s| ==> cmp(s[i], s[j]) <= 0
  {
  }

  /** Every value of `s` is at most every value of `t`. */
  ghost predicate AllBelow(cmp: Comparator, s: seq<Item>, t: seq<Item>) {
    forall i, j :: 0 <= i < |s| && 0 <= j < |t| ==> cmp(s[i], t[j]) <= 0
  }

  lemma NothingSorted(cmp: Comparator)
    ensures Sorted(cmp, [])
  {
  }

  lemma NextSorted(cmp: Comparator, values: seq<Item>, value: Item, before: seq<Item>, after: seq<Item>)
    requires Sorted(cmp, values) && AllBelow(cmp, values, before) && before != [] && value == before[0]
    requires forall i :: 0 <= i < |before| ==> cmp(value, before[i]) <= 0
    requires multiset(before) == multiset(after) + multiset{value}
    ensures Sorted(cmp, values + [value]) && AllBelow(cmp, values + [value], after)
  {
    forall j | 0 <= j < |after| ensures after[j] in before {
      assert after[j] in multiset(after);
      assert after[j] in multiset(before);
    }
  }

  /** Takes the root out of the `cnt` buckets in use. */
  method TakeRoot(buf: array<Item>, cnt: nat, cmp: Comparator)
    requires 0 < cnt <= buf.Length && Orders(cmp) && IsHeap(cmp, buf[..cnt])
    modifies buf
    ensures IsHeap(cmp, buf[..cnt - 1])
    ensures multiset(old(buf[..cnt])) == multiset(buf[..cnt - 1]) + multiset{old(buf[0])}
  {
    hide Orders, IsHeap, Sinking;
    ghost var was := buf[..cnt];
    TakenOut(was);
    var val := buf[cnt - 1];
    if 1 < cnt {
      SinkStart(cmp, was);
      assert buf[..cnt - 1] == was[..cnt - 1];
      SiftDown(buf, cnt - 1, val, cmp);
    } else {
      EmptyHeap(cmp);
      buf[0] := val;
      assert buf[..0] == [] && was == [was[0]];
    }
  }

  lemma Unbooked(retained: multiset<Item>, released: multiset<Item>, now: multiset<Item>, value: Item)
    ensures retained == released + (now + multiset{value}) ==> retained == released + multiset{value} + now
  {
  }

  // ---------- Whole runs

  datatype Op = Add(value: Item) | RemoveMinimum

  ghost predicate IsLeast(cmp: Comparator, bag: multiset<Item>, m: Item) {
    m in bag && forall x :: x in bag ==> cmp(m, x) <= 0
  }

  /** A priority queue can get from one collection to another by the given operations. */
  ghost predicate Follows(cmp: Comparator, bag: multiset<Item>, ops: seq<Op>, bag': multiset<Item>)
    decreases |ops|
  {
    if ops == [] then bag' == bag
    else match ops[0]
      case Add(value) => Follows(cmp, bag + multiset{value}, ops[1..], bag')
      case RemoveMinimum =>
        if bag == multiset{} then Follows(cmp, bag, ops[1..], bag')
        else exists m :: IsLeast(cmp, bag, m) && Follows(cmp, bag - multiset{m}, ops[1..], bag')
  }

  /** Whatever is added and removed, the heap stays in order and behaves as a priority queue. */
  method Run(heap: Heap, ops: seq<Op>)
    requires heap.Valid() && heap.count + |ops| < MAX_CAPACITY
    modifies heap, heap.buckets
    ensures heap.Valid()
    ensures Follows(heap.cmp, multiset(old(heap.Contents())), ops, multiset(heap.Contents()))
    decreases |ops|
  {
    hide Orders, IsHeap, Heap.Owns;
    if ops == [] {
      return;
    }
    ghost var s := heap.Contents();
    match ops[0]
    case Add(value) =>
      heap.AddValue(value);
      Run(heap, ops[1..]);
    case RemoveMinimum =>
      RootIsLeast(heap.cmp, s);
      BagEmpty(s);
      heap.RemoveMinimumValue();
      ghost var t := heap.Contents();
      assert s != [] ==> multiset(t) == multiset(s) - multiset{s[0]};
      Run(heap, ops[1..]);
  }

  lemma RootIsLeast(cmp: Comparator, s: seq<Item>)
    requires Orders(cmp) && IsHeap(cmp, s)
    ensures s != [] ==> IsLeast(cmp, multiset(s), s[0])
  {
    if s != [] {
      forall x | x in multiset(s) ensures cmp(s[0], x) <= 0 {
        var i :| 0 <= i < |s| && s[i] == x;
        RootLeast(cmp, s, i);
      }
    }
  }

  lemma BagEmpty(s: seq<Item>)
    ensures multiset(s) == multiset{} <==> s == []
  {
    if s != [] {
      assert s[0] in multiset(s);
    }
  }

  lemma EmptyHeap(cmp: Comparator)
    ensures IsHeap(cmp, [])
  {
  }

  lemma Booked(retained: multiset<Item>, released: multiset<Item>, was: multiset<Item>, value: Item)
    ensures retained == released + was ==> retained + multiset{value} == released + (was + multiset{value})
  {
  }

  /** Replacing the first value by the last and dropping the last takes out the first. */
  lemma TakenOut(s: seq<Item>)
    requires s != []
    ensures |s| > 1 ==> multiset(s) == multiset(s[..|s| - 1][0 := s[|s| - 1]]) + multiset{s[0]}
  {
    if |s| > 1 {
      var n := |s| - 1;
      assert s == [s[0]] + s[1..n] + [s[n]];
      assert s[..n][0 := s[n]] == [s[n]] + s[1..n];
    }
  }
}
