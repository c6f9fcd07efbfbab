/** The value, key and count stores of a table, and the slots they stand for. */
module HashStores {
  import opened HashSlots
  import opened HashTables
  import opened Machine

  /** The largest count a store of the given width is allowed to reach. */
  function MaxCount(width: nat): nat {
    if width == 0 then 0x7F else if width == 1 then 0x7FFF else if width == 2 then 0x7FFF_FFFF else LONG_MAX
  }

  /** The count store's element type wraps here. */
  function Modulus(width: nat): (m: nat)
    ensures m == 2 * (MaxCount(width) + 1)
  {
    if width == 0 then 0x100 else if width == 1 then 0x1_0000
    else if width == 2 then 0x1_0000_0000 else 0x1_0000_0000_0000_0000
  }

  /** A table has keys of its own (a dictionary), counts (a bag), or neither (a set). */
  datatype Stores = Stores(hasKeys: bool, hasCounts: bool, values: seq<Word>, keys: seq<Word>, counts: seq<nat>)

  /** The stores agree on which slots are empty, deleted and live; only live slots have counts. */
  ghost predicate Shaped(t: Stores) {
    && |t.keys| == (if t.hasKeys then |t.values| else 0)
    && |t.counts| == (if t.hasCounts then |t.values| else 0)
    && (t.hasKeys ==> forall i :: 0 <= i < |t.values| ==>
          (t.keys[i] == EMPTY <==> t.values[i] == EMPTY) && (t.keys[i] == DELETED <==> t.values[i] == DELETED))
    && (t.hasCounts ==> forall i :: 0 <= i < |t.values| ==> (t.counts[i] > 0 <==> !IsMark(t.values[i])))
  }

  function RawKey(t: Stores, i: nat): Word
    requires i < |t.values| && (t.hasKeys ==> i < |t.keys|)
  {
    if t.hasKeys then t.keys[i] else t.values[i]
  }

  function SlotAt(t: Stores, i: nat): Slot
    requires i < |t.values| && (t.hasKeys ==> i < |t.keys|) && (t.hasCounts ==> i < |t.counts|)
  {
    if t.values[i] == EMPTY then Empty
    else if t.values[i] == DELETED then Tomb
    else Live(Entry(Load(RawKey(t, i)), Load(t.values[i]), if t.hasCounts then t.counts[i] else 1))
  }

  ghost function Slots(t: Stores): (s: seq<Slot>)
    requires Shaped(t)
    ensures |s| == |t.values|
    ensures forall i :: 0 <= i < |s| ==> s[i] == SlotAt(t, i)
  {
    seq(|t.values|, i requires 0 <= i < |t.values| => SlotAt(t, i))
  }

  /** The stores with one slot written. */
  function Written(t: Stores, b: nat, k: Word, v: Word, count: nat): Stores
    requires b < |t.values| && (t.hasKeys ==> b < |t.keys|) && (t.hasCounts ==> b < |t.counts|)
  {
    t.(values := t.values[b := Store(v)],
       keys := if t.hasKeys then t.keys[b := Store(k)] else t.keys,
       counts := if t.hasCounts then t.counts[b := count] else t.counts)
  }

  lemma WrittenSlots(t: Stores, b: nat, k: Word, v: Word, count: nat)
    requires Shaped(t) && b < |t.values| && Legal(k) && Legal(v)
    requires count > 0 && (!t.hasKeys ==> k == v) && (!t.hasCounts ==> count == 1)
    ensures Shaped(Written(t, b, k, v, count))
    ensures Slots(Written(t, b, k, v, count)) == Slots(t)[b := Live(Entry(k, v, count))]
  {
    LoadStore(k);
    LoadStore(v);
  }

  /** The stores with one slot marked deleted. */
  function Marked(t: Stores, b: nat): Stores
    requires b < |t.values| && (t.hasKeys ==> b < |t.keys|) && (t.hasCounts ==> b < |t.counts|)
  {
    t.(values := t.values[b := DELETED],
       keys := if t.hasKeys then t.keys[b := DELETED] else t.keys,
       counts := if t.hasCounts then t.counts[b := 0] else t.counts)
  }

  lemma MarkedSlots(t: Stores, b: nat)
    requires Shaped(t) && b < |t.values|
    ensures Shaped(Marked(t, b)) && Slots(Marked(t, b)) == Slots(t)[b := Tomb]
  {
  }

  /** Freshly cleared stores. */
  function Cleared(hasKeys: bool, hasCounts: bool, n: nat): (t: Stores)
    ensures Shaped(t) && |t.values| == n && forall i :: 0 <= i < n ==> Slots(t)[i] == Empty
  {
    Stores(hasKeys, hasCounts, seq(n, _ => EMPTY),
           if hasKeys then seq(n, _ => EMPTY) else [], if hasCounts then seq(n, _ => 0) else [])
  }

  // ---------- Searching the stores

  /**
    The probe loop for linear hashing: it stops at the key or at an empty bucket and offers
    the first deleted bucket on the way for reuse.
   */
  method FindBucket(K: Keying, t: Stores, k: Word) returns (idx: int, count: nat)
    requires Lawful(K) && Shaped(t) && Findable(K, Slots(t))
    ensures Search(K, Slots(t), k, idx, count > 0)
    ensures count > 0 ==> count == Slots(t)[idx].entry.count
    ensures !t.hasCounts ==> count <= 1
  {
    hide Findable, Lawful, Passed, PathLive, Shaped, SlotAt, Load, RawKey;
    ShapedSizes(t);
    var n := |t.values|;
    if n == 0 {
      return -1, 0;
    }
    ghost var s := Slots(t);
    var probe := K.hash(k) % n;
    ghost var start := Start(K, k, n);
    PassedNone(K, s, k);
    var deletedIdx := -1;
    var step := 0;
    while step < n
      invariant 0 <= step <= n
      invariant step < n ==> probe == Probe(start, step, n)
      invariant Passed(K, s, k, step)
      invariant deletedIdx == -1 ==> forall j :: 0 <= j < step ==> s[Probe(start, j, n)].Live?
      invariant deletedIdx != -1 ==> 0 <= deletedIdx < n && s[deletedIdx].Tomb? && PathLive(s, start, deletedIdx)
    {
      var currKey := RawKey(t, probe);
      RawSlot(t, probe);
      if deletedIdx == -1 {
        LiveSoFar(s, start, step);
      }
      if currKey == EMPTY {
        EmptyMeansAbsent(K, s, k, step);
        return if deletedIdx == -1 then probe else deletedIdx, 0;
      } else if currKey == DELETED {
        if deletedIdx == -1 {
          deletedIdx := probe;
        }
      } else {
        var key := Load(currKey);
        if key == k || K.eq(key, k) {
          EqualsItself(K, k);
          return probe, if t.hasCounts then t.counts[probe] else 1;
        }
      }
      PassedOne(K, s, k, step);
      probe := probe + 1;
      if n <= probe {
        probe := probe - n;
      }
      step := step + 1;
    }
    AllPassedMeansAbsent(K, s, k);
    if deletedIdx == -1 {
      AllLive(s, start);
    }
    return deletedIdx, 0;
  }

  lemma ShapedSizes(t: Stores)
    requires Shaped(t)
    ensures |t.keys| == (if t.hasKeys then |t.values| else 0) && |t.counts| == (if t.hasCounts then |t.values| else 0)
  {
  }

  /** How the raw key word shows what a slot is. */
  lemma RawSlot(t: Stores, i: nat)
    requires Shaped(t) && i < |t.values|
    ensures
      var x := Slots(t)[i];
      && (RawKey(t, i) == EMPTY <==> x.Empty?)
      && (RawKey(t, i) == DELETED <==> x.Tomb?)
      && (x.Live? ==> x.entry.key == Load(RawKey(t, i)) && x.entry.count == (if t.hasCounts then t.counts[i] else 1))
      && (x.Live? ==> x.entry.count > 0)
  {
  }

  lemma EqualsItself(K: Keying, k: Word)
    requires Lawful(K)
    ensures K.eq(k, k)
  {
  }

  lemma PassedNone(K: Keying, s: seq<Slot>, k: Word)
    requires |s| > 0
    ensures Passed(K, s, k, 0)
  {
  }

  lemma PassedOne(K: Keying, s: seq<Slot>, k: Word, n: nat)
    requires n < |s| && Passed(K, s, k, n)
    requires
      var x := s[Probe(Start(K, k, |s|), n, |s|)];
      !x.Empty? && (x.Live? ==> !K.eq(x.entry.key, k))
    ensures Passed(K, s, k, n + 1)
  {
  }

  lemma AllLive(s: seq<Slot>, start: nat)
    requires start < |s| && forall j :: 0 <= j < |s| ==> s[Probe(start, j, |s|)].Live?
    ensures forall i :: 0 <= i < |s| ==> s[i].Live?
  {
    forall i | 0 <= i < |s| ensures s[i].Live? {
      assert Probe(start, Dist(start, i, |s|), |s|) == i;
    }
  }

  /** The probe loop used while rehashing: any bucket that is not empty is passed over. */
  method FindEmpty(K: Keying, t: Stores, k: Word) returns (idx: nat)
    requires Shaped(t) && |LiveSet(Slots(t))| < |t.values| && TombSet(Slots(t)) == {}
    ensures idx < |t.values| && Slots(t)[idx].Empty? && PathLive(Slots(t), Start(K, k, |t.values|), idx)
  {
    var n := |t.values|;
    ghost var s := Slots(t);
    idx := K.hash(k) % n;
    ghost var start := Start(K, k, n);
    ghost var free := NotAllLive(s);
    assert free !in TombSet(s);
    ghost var last := Dist(start, free, n);
    var step := 0;
    while RawKey(t, idx) != EMPTY
      invariant 0 <= step <= last && idx == Probe(start, step, n)
      invariant forall j :: 0 <= j < step ==> s[Probe(start, j, n)].Live?
      decreases n - step
    {
      assert step != last && idx !in TombSet(s);
      idx := idx + 1;
      if n <= idx {
        idx := idx - n;
      }
      step := step + 1;
    }
    assert Dist(start, idx, n) == step;
  }
}
