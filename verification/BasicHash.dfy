/** The hash table behind CFDictionary, CFSet and CFBag. */
module BasicHash {
  import opened HashSlots
  import opened HashTables
  import opened HashStores
  import opened Machine

  const ROLLOVER := 0x1_0000  // the tombstone counter has sixteen bits

  // ---------- What the operations should do to what the table denotes

  ghost function AddTo(K: Keying, hasCounts: bool, m: imap<Word, Entry>, k: Word, v: Word): imap<Word, Entry> {
    if k !in m then Put(K, m, Entry(k, v, 1))
    else if hasCounts && m[k].count < LONG_MAX then Put(K, m, m[k].(count := m[k].count + 1))
    else m
  }

  ghost function ReplaceIn(K: Keying, m: imap<Word, Entry>, k: Word, v: Word): imap<Word, Entry> {
    if k in m then Put(K, m, Entry(k, v, m[k].count)) else m
  }

  ghost function SetIn(K: Keying, m: imap<Word, Entry>, k: Word, v: Word): imap<Word, Entry> {
    Put(K, m, Entry(k, v, if k in m then m[k].count else 1))
  }

  ghost function RemoveFrom(K: Keying, m: imap<Word, Entry>, k: Word): imap<Word, Entry> {
    if k !in m then m
    else if m[k].count <= 1 then Drop(K, m, k)
    else if m[k].count < LONG_MAX then Put(K, m, m[k].(count := m[k].count - 1))
    else m
  }

  /** References held after retaining `w` and releasing the word it displaces, if any. */
  ghost function After(owned: bool, refs: multiset<Word>, w: Word, displaced: Word): multiset<Word> {
    if !owned then refs
    else if IsMark(displaced) then refs + multiset{w}
    else refs + multiset{w} - multiset{Load(displaced)}
  }

  /** Which words the table retains and releases. */
  datatype Owning = Owning(values: bool, keys: bool)

  ghost predicate WidthFits(counts: seq<nat>, width: nat) {
    width <= 3 && forall i :: 0 <= i < |counts| ==> counts[i] <= MaxCount(width)
  }

  /** The stores have one of the table sizes and every entry can be found under its key. */
  ghost predicate SoundAs(K: Keying, m: Stores, idx: nat, width: nat) {
    && Lawful(K) && Shaped(m) && WidthFits(m.counts, width)
    && idx <= LAST && |m.values| == TableSize(idx)
    && Findable(K, Slots(m)) && DistinctKeys(K, Slots(m))
  }

  /** Exactly the values and keys in the stores are held. */
  ghost predicate BalancedAs(own: Owning, m: Stores, valueRefs: multiset<Word>, keyRefs: multiset<Word>)
    requires Shaped(m)
  {
    && (own.values ==> valueRefs == Bag(Slots(m), ValueOf))
    && (own.keys ==> keyRefs == if m.hasKeys then Bag(Slots(m), KeyOf) else multiset{})
  }

  // ---------- What the operations do, key by key

  lemma PutHere(K: Keying, m: imap<Word, Entry>, e: Entry)
    requires Lawful(K)
    ensures e.key in Put(K, m, e) && Put(K, m, e)[e.key] == e
    ensures forall q :: K.eq(e.key, q) ==> q in Put(K, m, e) && Put(K, m, e)[q] == e
    ensures forall q :: !K.eq(e.key, q) ==> (q in Put(K, m, e) <==> q in m) && (q in m ==> Put(K, m, e)[q] == m[q])
  {
  }

  lemma DropHere(K: Keying, m: imap<Word, Entry>, k: Word)
    requires Lawful(K)
    ensures k !in Drop(K, m, k)
    ensures forall q :: !K.eq(k, q) ==> (q in Drop(K, m, k) <==> q in m) && (q in m ==> Drop(K, m, k)[q] == m[q])
  {
  }

  /** The stored key is equal to the one asked for. */
  lemma StoredEqual(K: Keying, s: seq<Slot>, k: Word)
    requires Lawful(K) && k in Contents(K, s)
    ensures K.eq(Contents(K, s)[k].key, k) && forall q :: K.eq(Contents(K, s)[k].key, q) <==> K.eq(k, q)
  {
    assert Has(K, s, k);
    var i :| Holds(K, s, k, i) && EntryFor(K, s, k) == s[i].entry;
  }

  lemma AddEffect(K: Keying, s: seq<Slot>, hasCounts: bool, k: Word, v: Word)
    requires Lawful(K)
    ensures var m := Contents(K, s); var m' := AddTo(K, hasCounts, m, k, v);
      && (k in m && !hasCounts ==> m' == m)
      && (k in m && hasCounts ==> k in m' && m'[k] == if m[k].count < LONG_MAX then m[k].(count := m[k].count + 1) else m[k])
      && (k !in m ==> k in m' && m'[k] == Entry(k, v, 1))
      && forall q :: !K.eq(k, q) ==> (q in m' <==> q in m) && (q in m' ==> m'[q] == m[q])
  {
    hide Contents, Put;
    var m := Contents(K, s);
    if k in m {
      StoredEqual(K, s, k);
      PutHere(K, m, m[k].(count := m[k].count + 1));
    } else {
      PutHere(K, m, Entry(k, v, 1));
    }
  }

  lemma ReplaceEffect(K: Keying, s: seq<Slot>, k: Word, v: Word)
    requires Lawful(K)
    ensures var m := Contents(K, s); var m' := ReplaceIn(K, m, k, v);
      && (k !in m ==> m' == m)
      && (k in m ==> k in m' && m'[k] == Entry(k, v, m[k].count))
      && forall q :: !K.eq(k, q) ==> (q in m' <==> q in m) && (q in m' ==> m'[q] == m[q])
  {
    hide Contents, Put;
    var m := Contents(K, s);
    PutHere(K, m, Entry(k, v, if k in m then m[k].count else 1));
  }

  lemma SetEffect(K: Keying, s: seq<Slot>, k: Word, v: Word)
    requires Lawful(K)
    ensures var m := Contents(K, s); var m' := SetIn(K, m, k, v);
      && k in m' && m'[k] == Entry(k, v, if k in m then m[k].count else 1)
      && forall q :: !K.eq(k, q) ==> (q in m' <==> q in m) && (q in m' ==> m'[q] == m[q])
  {
    hide Contents, Put;
    var m := Contents(K, s);
    PutHere(K, m, Entry(k, v, if k in m then m[k].count else 1));
  }

  lemma RemoveEffect(K: Keying, s: seq<Slot>, k: Word)
    requires Lawful(K)
    ensures var m := Contents(K, s); var m' := RemoveFrom(K, m, k);
      && (k !in m ==> m' == m)
      && (k in m && m[k].count <= 1 ==> k !in m')
      && (k in m && 1 < m[k].count < LONG_MAX ==> k in m' && m'[k] == m[k].(count := m[k].count - 1))
      && (k in m && LONG_MAX <= m[k].count ==> m' == m)
      && forall q :: !K.eq(k, q) ==> (q in m' <==> q in m) && (q in m' ==> m'[q] == m[q])
  {
    hide Contents, Put, Drop;
    var m := Contents(K, s);
    if k in m {
      StoredEqual(K, s, k);
      DropHere(K, m, k);
      PutHere(K, m, m[k].(count := if m[k].count > 0 then m[k].count - 1 else 0));
    }
  }

  class Table {
    const K: Keying
    const hasKeys: bool
    const hasCounts: bool
    const fastGrow: bool
    const own: Owning
    var numBucketsIdx: nat
    var usedBuckets: nat
    var deleted: nat
    var countsWidth: nat
    var values: seq<Word>
    var keys: seq<Word>
    var counts: seq<nat>
    ghost var valueRefs: multiset<Word>  // values retained and not released
    ghost var keyRefs: multiset<Word>

    constructor (K: Keying, hasKeys: bool, hasCounts: bool, fastGrow: bool, own: Owning)
      requires Lawful(K)
      ensures Valid() && Denoted() == imap[]
      ensures this.K == K && this.hasKeys == hasKeys && this.hasCounts == hasCounts
      ensures this.fastGrow == fastGrow && this.own == own
      ensures usedBuckets == 0
    {
      this.K, this.hasKeys, this.hasCounts, this.fastGrow, this.own := K, hasKeys, hasCounts, fastGrow, own;
      numBucketsIdx, usedBuckets, deleted, countsWidth := 0, 0, 0, 0;
      values, keys, counts := [], [], [];
      valueRefs, keyRefs := multiset{}, multiset{};
      new;
      assert LiveSet(View()) == {} && TombSet(View()) == {};
    }

    function Now(): Stores
      reads this
    {
      Stores(hasKeys, hasCounts, values, keys, counts)
    }

    ghost function View(): seq<Slot>
      reads this
      requires Shaped(Now())
    {
      Slots(Now())
    }

    ghost predicate WidthOk()
      reads this
    {
      WidthFits(counts, countsWidth)
    }

    /** Everything but the counters and the references. */
    ghost predicate Sound()
      reads this
    {
      SoundAs(K, Now(), numBucketsIdx, countsWidth)
    }

    ghost predicate Balanced()
      reads this
      requires Shaped(Now())
    {
      BalancedAs(own, Now(), valueRefs, keyRefs)
    }

    /**
      The counters are exact, the load stays within the capacity table, and exactly the keys
      and values in live slots are retained.
     */
    ghost predicate Valid()
      reads this
    {
      && Sound()
      && usedBuckets == |LiveSet(View())| <= TableCapacity(numBucketsIdx)
      && deleted == |TombSet(View())| < ROLLOVER
      && Balanced()
    }

    ghost function Denoted(): imap<Word, Entry>
      reads this
      requires Shaped(Now())
    {
      Contents(K, View())
    }

    /**
      The table of sizes has an entry for that many more. A table that grows fast takes the
      entry after the one it needs when a single key is added.
     */
    predicate RoomFor(more: nat)
      reads this
    {
      usedBuckets + more <= if fastGrow && more == 1 then NEXT_CAPACITY else TOP_CAPACITY
    }

    /** One more key fits the buckets at hand, or the table can grow for it. */
    predicate TakesOne()
      reads this
    {
      usedBuckets < TableCapacity(numBucketsIdx) || RoomFor(1)
    }

    // ---------- Slot writes

    method SetValue(b: nat, v: Word, ignoreOld: bool, literal: bool)
      requires b < |values|
      requires own.values && !ignoreOld && !IsMark(values[b]) ==> Load(values[b]) in valueRefs
      modifies this`values, this`valueRefs
      ensures values == old(values)[b := if literal then v else Store(v)]
      ensures valueRefs == if own.values && !ignoreOld && !IsMark(old(values[b]))
                           then old(valueRefs) - multiset{Load(old(values[b]))} else old(valueRefs)
    {
      var oldValue := if ignoreOld then EMPTY else values[b];
      values := values[b := if literal then v else Store(v)];
      if !ignoreOld && !IsMark(oldValue) && own.values {
        valueRefs := valueRefs - multiset{Load(oldValue)};
      }
    }

    method SetKey(b: nat, k: Word, ignoreOld: bool, literal: bool)
      requires b < |keys|
      requires own.keys && !ignoreOld && !IsMark(keys[b]) ==> Load(keys[b]) in keyRefs
      modifies this`keys, this`keyRefs
      ensures keys == old(keys)[b := if literal then k else Store(k)]
      ensures keyRefs == if own.keys && !ignoreOld && !IsMark(old(keys[b]))
                         then old(keyRefs) - multiset{Load(old(keys[b]))} else old(keyRefs)
    {
      var oldKey := if ignoreOld then EMPTY else keys[b];
      keys := keys[b := if literal then k else Store(k)];
      if !ignoreOld && !IsMark(oldKey) && own.keys {
        keyRefs := keyRefs - multiset{Load(oldKey)};
      }
    }

    /** Retains the new value and key, writes them, and releases what they displace. */
    method WriteSlot(b: nat, k: Word, v: Word)
      requires b < |values| && (hasKeys ==> b < |keys|)
      requires own.values && !IsMark(values[b]) ==> Load(values[b]) in valueRefs
      requires own.keys && hasKeys && !IsMark(keys[b]) ==> Load(keys[b]) in keyRefs
      modifies this`values, this`keys, this`valueRefs, this`keyRefs
      ensures values == old(values)[b := Store(v)]
      ensures keys == if hasKeys then old(keys)[b := Store(k)] else old(keys)
      ensures valueRefs == After(own.values, old(valueRefs), v, old(values[b]))
      ensures hasKeys ==> keyRefs == After(own.keys, old(keyRefs), k, old(keys[b]))
      ensures !hasKeys ==> keyRefs == old(keyRefs)
    {
      if own.values {
        valueRefs := valueRefs + multiset{v};
      }
      if own.keys && hasKeys {
        keyRefs := keyRefs + multiset{k};
      }
      SetValue(b, v, false, false);
      if hasKeys {
        SetKey(b, k, false, false);
      }
    }

    /** Widening the count store copies every count unchanged. */
    method BumpCounts()
      requires WidthOk() && countsWidth < 3
      modifies this`counts, this`countsWidth
      ensures WidthOk() && countsWidth == old(countsWidth) + 1 && counts == old(counts)
    {
      countsWidth := countsWidth + 1;
      var wider: seq<nat> := [];
      var idx := 0;
      while idx < |counts|
        invariant 0 <= idx <= |counts| && counts == old(counts) && countsWidth == old(countsWidth) + 1
        invariant wider == counts[..idx]
        invariant forall i :: 0 <= i < |counts| ==> counts[i] <= MaxCount(countsWidth - 1)
      {
        assert counts[idx] < Modulus(countsWidth);
        wider := wider + [counts[idx] % Modulus(countsWidth)];
        idx := idx + 1;
      }
      counts := wider;
    }

    method IncSlotCount(b: nat)
      requires WidthOk() && b < |counts| && counts[b] < LONG_MAX
      modifies this`counts, this`countsWidth
      ensures WidthOk() && counts == old(counts)[b := old(counts[b]) + 1]
      decreases 3 - countsWidth
    {
      var val := counts[b];
      if val < MaxCount(countsWidth) {
        counts := counts[b := (val + 1) % Modulus(countsWidth)];
        return;
      }
      BumpCounts();
      IncSlotCount(b);
    }

    method DecSlotCount(b: nat)
      requires WidthOk() && b < |counts| && counts[b] > 0
      modifies this`counts
      ensures WidthOk() && counts == old(counts)[b := old(counts[b]) - 1]
    {
      counts := counts[b := (counts[b] - 1) % Modulus(countsWidth)];
    }

    // ---------- Rehashing

    /**
      `__CFBasicHashRehash`: moves every live entry to fresh stores, sized for the present
      entries and `newItemCount` more, or left as they are when that is zero. No entry is
      retained or released on the way.
     */
    method Rehash(newItemCount: int)
      requires Sound()
      requires usedBuckets == |LiveSet(View())|
      requires newItemCount > 0 ==> RoomFor(newItemCount)
      requires newItemCount <= 0 ==> usedBuckets <= TableCapacity(numBucketsIdx)
      modifies this`numBucketsIdx, this`deleted, this`values, this`keys, this`counts
      ensures Sound() && TombSet(View()) == {} && deleted == 0
      ensures Bag(View(), Whole) == old(Bag(View(), Whole))
      ensures Bag(View(), ValueOf) == old(Bag(View(), ValueOf))
      ensures Bag(View(), KeyOf) == old(Bag(View(), KeyOf))
      ensures |LiveSet(View())| == usedBuckets
      ensures Denoted() == old(Denoted())
      ensures usedBuckets <= TableCapacity(numBucketsIdx)
      ensures newItemCount > 0 ==> usedBuckets + newItemCount <= TableCapacity(numBucketsIdx)
    {
      hide Findable, DistinctKeys, Lawful, TableSize, TableCapacity, LiveSet, TombSet, Contents, SlotAt, Shaped, Slots, Bag;
      var newIdx := NewIndex(newItemCount);
      var from := Now();
      assert View() == Slots(from) && usedBuckets == |LiveSet(Slots(from))|;
      var to := MoveAll(K, from, TableSize(newIdx), countsWidth);
      MovedAll(K, from, to, countsWidth);
      numBucketsIdx, deleted := newIdx, 0;
      values, keys, counts := to.values, to.keys, to.counts;
      assert Now() == to && View() == Slots(to) && |LiveSet(View())| == usedBuckets;
    }

    /** The table entry to rehash to. */
    method NewIndex(newItemCount: int) returns (newIdx: nat)
      requires newItemCount > 0 ==> RoomFor(newItemCount)
      requires newItemCount <= 0 ==> usedBuckets <= TableCapacity(numBucketsIdx)
      requires numBucketsIdx <= LAST
      ensures newIdx <= LAST && usedBuckets <= TableCapacity(newIdx) <= TableSize(newIdx)
      ensures newItemCount > 0 ==> usedBuckets + newItemCount <= TableCapacity(newIdx)
    {
      newIdx := numBucketsIdx;
      TableTop(numBucketsIdx);
      if newItemCount != 0 {
        var more := if newItemCount < 0 then 0 else newItemCount;
        newIdx := IndexForCapacity(usedBuckets + more);
        if more == 1 && fastGrow {
          TableGrows(newIdx);
          newIdx := newIdx + 1;
        }
      }
      TableFits(newIdx);
    }

    // ---------- Adding

    /** A full table is rehashed for the new key, which goes to an empty bucket. */
    method GrowFor(b: int, k: Word) returns (idx: nat)
      requires Valid() && RoomFor(1) && Search(K, View(), k, b, false)
      modifies this`numBucketsIdx, this`deleted, this`values, this`keys, this`counts
      ensures Sound() && Balanced() && Denoted() == old(Denoted())
      ensures usedBuckets == |LiveSet(View())| < TableCapacity(numBucketsIdx)
      ensures idx < |values| && deleted == |TombSet(View()) - {idx}| < ROLLOVER
      ensures !View()[idx].Live? && PathOpen(View(), Start(K, k, |values|), idx)
      ensures forall i :: !Holds(K, View(), k, i)
    {
      hide TableSize, TableCapacity, Findable, DistinctKeys, PathOpen, PathLive, Contents, Bag;
      assert k !in Denoted() by { NotHeld(K, View(), k); }
      Rehash(1);
      TableFits(numBucketsIdx);
      NotHeldBack(K, View(), k);
      idx := FindEmpty(K, Now(), k);
      LiveIsOpen(View(), Start(K, k, |values|), idx);
    }

    /** In a table with room the search has ended at a bucket that can be filled. */
    lemma ReuseBucket(b: int, k: Word)
      requires Valid() && usedBuckets < TableCapacity(numBucketsIdx) && Search(K, View(), k, b, false)
      ensures 0 <= b < |values| && !View()[b].Live? && PathOpen(View(), Start(K, k, |values|), b)
      ensures |TombSet(View()) - {b}| == if values[b] == DELETED then deleted - 1 else deleted
      ensures values[b] == DELETED ==> deleted > 0
      ensures forall i :: !Holds(K, View(), k, i)
    {
      hide TableSize, TableCapacity, Findable, DistinctKeys, PathOpen, PathLive, Contents, Bag;
      TableFits(numBucketsIdx);
      SomeFree(View());
      LiveIsOpen(View(), Start(K, k, |values|), b);
      if values[b] == DELETED {
        assert b in TombSet(View());
      } else {
        assert TombSet(View()) - {b} == TombSet(View());
      }
    }

    /** The first half of `__CFBasicHashAddValue`: a bucket for the new key, rehashing if need be. */
    method MakeRoom(b: int, k: Word) returns (idx: nat)
      requires Valid() && TakesOne()
      requires Search(K, View(), k, b, false)
      modifies this`numBucketsIdx, this`deleted, this`values, this`keys, this`counts
      ensures Sound() && Balanced() && Denoted() == old(Denoted())
      ensures usedBuckets == |LiveSet(View())| < TableCapacity(numBucketsIdx)
      ensures idx < |values| && deleted == |TombSet(View()) - {idx}| < ROLLOVER
      ensures !View()[idx].Live? && PathOpen(View(), Start(K, k, |values|), idx)
      ensures forall i :: !Holds(K, View(), k, i)
    {
      assert Shaped(Now());
      hide SoundAs, BalancedAs, Contents, TableSize, TableCapacity, Search, PathOpen, LiveSet, TombSet, Slots;
      if TableCapacity(numBucketsIdx) < usedBuckets + 1 {
        idx := GrowFor(b, k);
      } else {
        ReuseBucket(b, k);
        idx := b;
        if values[idx] == DELETED {
          deleted := deleted - 1;
        }
      }
    }

    /** The second half: retain, write the slot and count it. */
    method StoreAt(b: nat, k: Word, v: Word)
      requires Sound() && Balanced() && b < |values|
      requires Legal(k) && Legal(v) && (!hasKeys ==> k == v)
      requires usedBuckets == |LiveSet(View())| < TableCapacity(numBucketsIdx)
      requires deleted == |TombSet(View()) - {b}| < ROLLOVER
      requires !View()[b].Live? && PathOpen(View(), Start(K, k, |values|), b)
      requires forall i :: !Holds(K, View(), k, i)
      modifies this`values, this`keys, this`counts, this`countsWidth, this`usedBuckets, this`valueRefs, this`keyRefs
      ensures Valid() && usedBuckets == old(usedBuckets) + 1
      ensures Denoted() == Put(K, old(Denoted()), Entry(k, v, 1))
      ensures valueRefs == if own.values then old(valueRefs) + multiset{v} else old(valueRefs)
      ensures keyRefs == if own.keys && hasKeys then old(keyRefs) + multiset{k} else old(keyRefs)
    {
      hide SoundAs, BalancedAs, PathOpen, Contents, Slots, LiveSet, TombSet, Put, Shaped, Written, TableCapacity;
      NewTable(K, Now(), b, k, v, numBucketsIdx, countsWidth, own, valueRefs, keyRefs);
      FillSlot(b, k, v);
      usedBuckets := usedBuckets + 1;
    }

    method FillSlot(b: nat, k: Word, v: Word)
      requires WidthOk() && b < |values| && (hasKeys ==> b < |keys|) && (hasCounts ==> b < |counts|)
      requires IsMark(values[b]) && (hasKeys ==> IsMark(keys[b])) && (hasCounts ==> counts[b] == 0)
      modifies this`values, this`keys, this`counts, this`countsWidth, this`valueRefs, this`keyRefs
      ensures Now() == Written(old(Now()), b, k, v, 1) && WidthOk() && |values| == old(|values|)
      ensures valueRefs == if own.values then old(valueRefs) + multiset{v} else old(valueRefs)
      ensures keyRefs == if own.keys && hasKeys then old(keyRefs) + multiset{k} else old(keyRefs)
    {
      WriteSlot(b, k, v);
      if hasCounts {
        IncSlotCount(b);
      }
    }

    // ---------- Replacing, counting and removing

    /** `__CFBasicHashReplaceValue`. */
    method ReplaceAt(b: nat, k: Word, v: Word)
      requires Valid() && b < |values| && Legal(k) && Legal(v) && (!hasKeys ==> k == v)
      requires Holds(K, View(), k, b)
      modifies this`values, this`keys, this`valueRefs, this`keyRefs
      ensures Valid() && Denoted() == Put(K, old(Denoted()), Entry(k, v, old(View()[b].entry.count)))
      ensures valueRefs ==
        if own.values then old(valueRefs) + multiset{v} - multiset{old(View()[b].entry.value)} else old(valueRefs)
      ensures keyRefs ==
        if own.keys && hasKeys then old(keyRefs) + multiset{k} - multiset{old(View()[b].entry.key)} else old(keyRefs)
    {
      hide SoundAs, BalancedAs, Contents, Slots, LiveSet, TombSet, Put, Shaped, Holds, SlotAt, Written, TableCapacity;
      EqualTable(K, Now(), b, k, v, numBucketsIdx, countsWidth, own, valueRefs, keyRefs);
      HeldSlot(K, Now(), b, k);
      OverwriteSlot(b, k, v, View()[b].entry.count);
    }

    method OverwriteSlot(b: nat, k: Word, v: Word, ghost count: nat)
      requires b < |values| && (hasKeys ==> b < |keys|) && (hasCounts ==> b < |counts| && counts[b] == count)
      requires !IsMark(values[b]) && (hasKeys ==> !IsMark(keys[b]))
      requires own.values ==> Load(values[b]) in valueRefs
      requires own.keys && hasKeys ==> Load(keys[b]) in keyRefs
      modifies this`values, this`keys, this`valueRefs, this`keyRefs
      ensures Now() == Written(old(Now()), b, k, v, count) && |values| == old(|values|)
      ensures valueRefs == if own.values then old(valueRefs) + multiset{v} - multiset{Load(old(values[b]))} else old(valueRefs)
      ensures keyRefs == if own.keys && hasKeys then old(keyRefs) + multiset{k} - multiset{Load(old(keys[b]))} else old(keyRefs)
    {
      WriteSlot(b, k, v);
    }

    /** One more or one fewer of a key that stays in the table. */
    method Recount(b: nat, k: Word, up: bool)
      requires Valid() && hasCounts && b < |values| && Holds(K, View(), k, b)
      requires if up then View()[b].entry.count < LONG_MAX else 1 < View()[b].entry.count
      modifies this`counts, this`countsWidth
      ensures Valid()
      ensures
        var e := old(View()[b].entry);
        Denoted() == Put(K, old(Denoted()), e.(count := if up then e.count + 1 else e.count - 1))
    {
      hide TableSize, TableCapacity, Findable, DistinctKeys, Contents, Bag, Lawful, Slots, LiveSet, TombSet, Put,
        Store, Shaped, Holds, SlotAt;
      ghost var was := Now();
      HeldSlot(K, was, b, k);
      ghost var count := if up then counts[b] + 1 else counts[b] - 1;
      RecountedSlot(K, was, b, count);
      if up {
        IncSlotCount(b);
      } else {
        DecSlotCount(b);
      }
      assert Now() == was.(counts := was.counts[b := count]);
      assert Sound();
      assert Balanced();
    }

    /** The slot writes of `__CFBasicHashRemoveValue`; the tombstone counter wraps at 16 bits. */
    method MarkDeleted(b: nat, ghost k: Word)
      requires Valid() && b < |values| && Holds(K, View(), k, b) && View()[b].entry.count == 1
      modifies this`values, this`keys, this`counts, this`usedBuckets, this`deleted, this`valueRefs, this`keyRefs
      ensures Sound() && Balanced() && Denoted() == Drop(K, old(Denoted()), k)
      ensures usedBuckets == old(usedBuckets) - 1 == |LiveSet(View())|
      ensures deleted == |TombSet(View())| % ROLLOVER && 0 < |TombSet(View())| <= ROLLOVER
      ensures valueRefs == if own.values then old(valueRefs) - multiset{old(View()[b].entry.value)} else old(valueRefs)
      ensures keyRefs == if own.keys && hasKeys then old(keyRefs) - multiset{old(View()[b].entry.key)} else old(keyRefs)
    {
      hide SoundAs, BalancedAs, Contents, Slots, LiveSet, TombSet, Drop, Shaped, Holds, SlotAt, Marked, TableCapacity, Load;
      BuriedTable(K, Now(), b, k, numBucketsIdx, countsWidth, own, valueRefs, keyRefs);
      HeldWords(b, k);
      EraseSlot(b);
      usedBuckets := usedBuckets - 1;
      deleted := (deleted + 1) % ROLLOVER;
    }

    lemma HeldWords(b: nat, k: Word)
      requires Valid() && b < |values| && Holds(K, View(), k, b)
      ensures View()[b].Live? && Load(values[b]) == View()[b].entry.value
      ensures hasKeys ==> b < |keys| && Load(keys[b]) == View()[b].entry.key
    {
    }

    method EraseSlot(b: nat)
      requires WidthOk() && b < |values| && (hasKeys ==> b < |keys|) && (hasCounts ==> b < |counts|)
      requires !IsMark(values[b]) && (hasKeys ==> !IsMark(keys[b])) && (hasCounts ==> counts[b] == 1)
      requires own.values ==> Load(values[b]) in valueRefs
      requires own.keys && hasKeys ==> Load(keys[b]) in keyRefs
      modifies this`values, this`keys, this`counts, this`valueRefs, this`keyRefs
      ensures Now() == Marked(old(Now()), b) && WidthOk() && |values| == old(|values|)
      ensures valueRefs == if own.values then old(valueRefs) - multiset{Load(old(values[b]))} else old(valueRefs)
      ensures keyRefs == if own.keys && hasKeys then old(keyRefs) - multiset{Load(old(keys[b]))} else old(keyRefs)
    {
      SetValue(b, DELETED, false, true);
      if hasKeys {
        SetKey(b, DELETED, false, true);
      }
      if hasCounts {
        DecSlotCount(b);
      }
    }

    /** `__CFBasicHashRemoveValue`: shrinks a sparse table and purges one with many tombstones. */
    method RemoveAt(b: nat, ghost k: Word)
      requires Valid() && b < |values| && Holds(K, View(), k, b) && View()[b].entry.count == 1
      modifies this
      ensures Valid() && Denoted() == Drop(K, old(Denoted()), k)
      ensures usedBuckets == old(usedBuckets) - 1
      ensures valueRefs == if own.values then old(valueRefs) - multiset{old(View()[b].entry.value)} else old(valueRefs)
      ensures keyRefs == if own.keys && hasKeys then old(keyRefs) - multiset{old(View()[b].entry.key)} else old(keyRefs)
    {
      hide TableSize, TableCapacity, Findable, DistinctKeys, Contents, Bag, Lawful, Slots, LiveSet, TombSet, Drop,
        Shaped, Holds, SlotAt;
      MarkDeleted(b, k);
      var shrink := if fastGrow then 5 < numBucketsIdx && usedBuckets < TableCapacity(numBucketsIdx - 5)
                    else 2 < numBucketsIdx && usedBuckets < TableCapacity(numBucketsIdx - 2);
      if shrink {
        Rehash(-1);
        return;
      }
      var numBuckets := TableSize(numBucketsIdx);
      if deleted == 0 || (20 <= numBuckets && numBuckets / 4 <= deleted) {
        Rehash(0);
      }
    }

    // ---------- The public operations

    /** `__CFBasicHashFindBucket`. */
    method Find(k: Word) returns (idx: int, count: nat)
      requires Valid()
      ensures Search(K, View(), k, idx, count > 0)
      ensures count > 0 <==> k in Denoted()
      ensures count > 0 ==> 0 <= idx < |values| && Holds(K, View(), k, idx)
      ensures count > 0 ==> View()[idx].entry == Denoted()[k] && Denoted()[k].count == count
      ensures !hasCounts ==> count <= 1
    {
      hide TableSize, TableCapacity, Findable, DistinctKeys, Contents, Bag, Lawful, Slots, LiveSet, TombSet, Shaped, SlotAt;
      idx, count := FindBucket(K, Now(), k);
      Found(K, View(), k, idx, count > 0);
    }

    lemma Laws()
      requires Valid()
      ensures Lawful(K) && Shaped(Now())
    {
    }

    /** `CFBasicHashAddValue`. */
    method Add(k: Word, v: Word) returns (added: bool)
      requires Valid() && (k !in Denoted() ==> TakesOne())
      requires Legal(k) && Legal(v) && (!hasKeys ==> k == v)
      modifies this
      ensures Valid() && Denoted() == AddTo(K, hasCounts, old(Denoted()), k, v)
      ensures added <==> old(k !in Denoted() || (hasCounts && Denoted()[k].count < LONG_MAX))
      ensures usedBuckets == if old(k in Denoted()) then old(usedBuckets) else old(usedBuckets) + 1
      ensures k in old(Denoted()) && !hasCounts ==> Denoted() == old(Denoted())
      ensures k in old(Denoted()) && hasCounts ==>
        && k in Denoted() && Denoted()[k].key == old(Denoted())[k].key && Denoted()[k].value == old(Denoted())[k].value
        && Denoted()[k].count ==
           if old(Denoted())[k].count < LONG_MAX then old(Denoted())[k].count + 1 else old(Denoted())[k].count
      ensures k !in old(Denoted()) ==> k in Denoted() && Denoted()[k] == Entry(k, v, 1)
      ensures forall q :: !K.eq(k, q) ==>
                (q in Denoted() <==> q in old(Denoted())) && (q in Denoted() ==> Denoted()[q] == old(Denoted())[q])
      ensures valueRefs == if own.values && k !in old(Denoted()) then old(valueRefs) + multiset{v} else old(valueRefs)
      ensures keyRefs == if own.keys && hasKeys && k !in old(Denoted()) then old(keyRefs) + multiset{k} else old(keyRefs)
    {
      hide AddTo, Sound, Balanced, Contents, Put, Search, Shaped, Slots, TableSize, TableCapacity;
      Laws();
      AddEffect(K, View(), hasCounts, k, v);
      added := AddWord(k, v);
    }

    method AddWord(k: Word, v: Word) returns (added: bool)
      requires Valid() && (k !in Denoted() ==> TakesOne())
      requires Legal(k) && Legal(v) && (!hasKeys ==> k == v)
      modifies this
      ensures Valid() && Denoted() == AddTo(K, hasCounts, old(Denoted()), k, v)
      ensures added <==> old(k !in Denoted() || (hasCounts && Denoted()[k].count < LONG_MAX))
      ensures usedBuckets == if old(k in Denoted()) then old(usedBuckets) else old(usedBuckets) + 1
      ensures valueRefs == if own.values && k !in old(Denoted()) then old(valueRefs) + multiset{v} else old(valueRefs)
      ensures keyRefs == if own.keys && hasKeys && k !in old(Denoted()) then old(keyRefs) + multiset{k} else old(keyRefs)
    {
      hide Sound, Balanced, Contents, Put, Search, Shaped, Slots, TableSize, TableCapacity;
      Laws();
      var idx, count := Find(k);
      if 0 < count {
        if hasCounts && count < LONG_MAX {
          Recount(idx, k, true);
          return true;
        }
      } else {
        var b := MakeRoom(idx, k);
        StoreAt(b, k, v);
        return true;
      }
      return false;
    }

    /** `CFBasicHashReplaceValue`. */
    method Replace(k: Word, v: Word)
      requires Valid() && Legal(k) && Legal(v) && (!hasKeys ==> k == v)
      modifies this
      ensures Valid() && Denoted() == ReplaceIn(K, old(Denoted()), k, v) && usedBuckets == old(usedBuckets)
      ensures k !in old(Denoted()) ==> Denoted() == old(Denoted())
      ensures k in old(Denoted()) ==> k in Denoted() && Denoted()[k] == Entry(k, v, old(Denoted())[k].count)
      ensures forall q :: !K.eq(k, q) ==>
                (q in Denoted() <==> q in old(Denoted())) && (q in Denoted() ==> Denoted()[q] == old(Denoted())[q])
      ensures valueRefs == if own.values && k in old(Denoted())
                           then old(valueRefs) + multiset{v} - multiset{old(Denoted())[k].value} else old(valueRefs)
      ensures keyRefs == if own.keys && hasKeys && k in old(Denoted())
                         then old(keyRefs) + multiset{k} - multiset{old(Denoted())[k].key} else old(keyRefs)
    {
      hide Sound, Balanced, Contents, Put, Search, Shaped, Slots, TableSize, TableCapacity;
      Laws();
      ReplaceEffect(K, View(), k, v);
      var idx, count := Find(k);
      if 0 < count {
        ReplaceAt(idx, k, v);
      }
    }

    /** `CFBasicHashSetValue`. */
    method Set(k: Word, v: Word)
      requires Valid() && (k !in Denoted() ==> TakesOne())
      requires Legal(k) && Legal(v) && (!hasKeys ==> k == v)
      modifies this
      ensures Valid() && Denoted() == SetIn(K, old(Denoted()), k, v)
      ensures usedBuckets == if old(k in Denoted()) then old(usedBuckets) else old(usedBuckets) + 1
      ensures k in Denoted() && Denoted()[k] == Entry(k, v, if k in old(Denoted()) then old(Denoted())[k].count else 1)
      ensures forall q :: !K.eq(k, q) ==>
                (q in Denoted() <==> q in old(Denoted())) && (q in Denoted() ==> Denoted()[q] == old(Denoted())[q])
      ensures valueRefs == if !own.values then old(valueRefs)
                           else if k !in old(Denoted()) then old(valueRefs) + multiset{v}
                           else old(valueRefs) + multiset{v} - multiset{old(Denoted())[k].value}
      ensures keyRefs == if !own.keys || !hasKeys then old(keyRefs)
                         else if k !in old(Denoted()) then old(keyRefs) + multiset{k}
                         else old(keyRefs) + multiset{k} - multiset{old(Denoted())[k].key}
    {
      hide Sound, Balanced, Contents, Put, Search, Shaped, Slots, TableSize, TableCapacity;
      Laws();
      SetEffect(K, View(), k, v);
      var idx, count := Find(k);
      if 0 < count {
        ReplaceAt(idx, k, v);
      } else {
        var b := MakeRoom(idx, k);
        StoreAt(b, k, v);
      }
    }

    /** `CFBasicHashRemoveValue`; the substitute words are never in a table. */
    method Remove(k: Word) returns (count: nat)
      requires Valid()
      modifies this
      ensures Valid() && Denoted() == if Legal(k) then RemoveFrom(K, old(Denoted()), k) else old(Denoted())
      ensures count == if Legal(k) && k in old(Denoted()) then old(Denoted())[k].count else 0
      ensures usedBuckets <= old(usedBuckets)
      ensures count == 0 || LONG_MAX <= count ==> Denoted() == old(Denoted())
      ensures count == 1 ==> k !in Denoted()
      ensures 1 < count < LONG_MAX ==> k in Denoted() && Denoted()[k] == old(Denoted())[k].(count := count - 1)
      ensures forall q :: !K.eq(k, q) ==>
                (q in Denoted() <==> q in old(Denoted())) && (q in Denoted() ==> Denoted()[q] == old(Denoted())[q])
      ensures valueRefs == if own.values && count == 1 then old(valueRefs) - multiset{old(Denoted())[k].value} else old(valueRefs)
      ensures keyRefs ==
        if own.keys && hasKeys && count == 1 then old(keyRefs) - multiset{old(Denoted())[k].key} else old(keyRefs)
    {
      hide Sound, Balanced, Contents, Put, Drop, Search, Shaped, Slots, TableSize, TableCapacity;
      Laws();
      RemoveEffect(K, View(), k);
      if k == SUB_ZERO || k == SUB_ONE {
        return 0;
      }
      var idx;
      idx, count := Find(k);
      if 1 < count {
        if hasCounts && count < LONG_MAX {
          Recount(idx, k, false);
        }
      } else if 0 < count {
        RemoveAt(idx, k);
      }
    }

    /** `CFBasicHashSetCapacity`. */
    method SetCapacity(capacity: nat)
      requires Valid() && (usedBuckets < capacity ==> RoomFor(capacity - usedBuckets))
      modifies this
      ensures Valid() && Denoted() == old(Denoted()) && usedBuckets == old(usedBuckets)
      ensures valueRefs == old(valueRefs) && keyRefs == old(keyRefs)
      ensures capacity <= TableCapacity(numBucketsIdx) || capacity <= usedBuckets
    {
      hide Findable, DistinctKeys, Contents, Bag, Lawful, Slots, LiveSet, TombSet, Shaped, SlotAt, TableSize, TableCapacity;
      if usedBuckets < capacity {
        Rehash(capacity - usedBuckets);
      }
    }

    /** `CFBasicHashRemoveAllValues`, through `__CFBasicHashDrain`: everything held is released. */
    method RemoveAll()
      requires Valid()
      modifies this
      ensures Valid() && Denoted() == imap[] && usedBuckets == 0
      ensures (own.values ==> valueRefs == multiset{}) && (own.keys ==> keyRefs == multiset{})
    {
      hide Bag, Findable, DistinctKeys, LiveSet, TombSet, Shaped, Slots, Lawful, Contents, SlotAt;
      if numBucketsIdx == 0 {
        ShapedSizes(Now());
        EmptyView(K, Now());
        return;
      }
      var was := Now();
      numBucketsIdx, usedBuckets, deleted := 0, 0, 0;
      values, keys, counts := [], [], [];
      EmptyView(K, Now());
      ReleaseAll(was);
    }

    /** The loop of `__CFBasicHashDrain`. */
    method ReleaseAll(was: Stores)
      requires Shaped(was) && was.hasKeys == hasKeys && BalancedAs(own, was, valueRefs, keyRefs)
      modifies this`valueRefs, this`keyRefs
      ensures (own.values ==> valueRefs == multiset{}) && (own.keys ==> keyRefs == multiset{})
    {
      hide Shaped, BalancedAs, ReleasedAs;
      ReleaseBegin(own, was, valueRefs, keyRefs);
      var idx := 0;
      while idx < |was.values|
        invariant 0 <= idx <= |was.values|
        invariant ReleasedAs(own, was, idx, valueRefs, keyRefs)
      {
        if !IsMark(was.values[idx]) {
          ReleaseOne(was, idx);
        } else {
          ReleaseSkip(own, was, idx, valueRefs, keyRefs);
        }
        idx := idx + 1;
      }
      ReleaseEnd(own, was, valueRefs, keyRefs);
    }

    method ReleaseOne(was: Stores, idx: nat)
      requires Shaped(was) && was.hasKeys == hasKeys && idx < |was.values| && !IsMark(was.values[idx])
      requires ReleasedAs(own, was, idx, valueRefs, keyRefs)
      modifies this`valueRefs, this`keyRefs
      ensures ReleasedAs(own, was, idx + 1, valueRefs, keyRefs)
    {
      hide Shaped, Released, Load, SlotAt, Slots;
      LiveWords(was, idx);
      if own.values {
        OneReleased(was, idx, ValueOf, valueRefs);
        valueRefs := valueRefs - multiset{Load(was.values[idx])};
      }
      if own.keys && hasKeys {
        OneReleased(was, idx, KeyOf, keyRefs);
        keyRefs := keyRefs - multiset{Load(was.keys[idx])};
      }
    }
  }

  /** What is still held after the first `n` slots were released. */
  ghost predicate ReleasedAs(own: Owning, t: Stores, n: nat, valueRefs: multiset<Word>, keyRefs: multiset<Word>)
    requires Shaped(t) && n <= |t.values|
  {
    && (own.values ==> Released(t, n, ValueOf, valueRefs))
    && (own.keys && t.hasKeys ==> Released(t, n, KeyOf, keyRefs))
    && (own.keys && !t.hasKeys ==> keyRefs == multiset{})
  }

  lemma ReleaseBegin(own: Owning, t: Stores, valueRefs: multiset<Word>, keyRefs: multiset<Word>)
    requires Shaped(t) && BalancedAs(own, t, valueRefs, keyRefs)
    ensures ReleasedAs(own, t, 0, valueRefs, keyRefs)
  {
    hide Shaped, Released, Bag, Slots;
    NoneReleased(t, ValueOf);
    NoneReleased(t, KeyOf);
  }

  lemma ReleaseSkip(own: Owning, t: Stores, i: nat, valueRefs: multiset<Word>, keyRefs: multiset<Word>)
    requires Shaped(t) && i < |t.values| && IsMark(t.values[i]) && ReleasedAs(own, t, i, valueRefs, keyRefs)
    ensures ReleasedAs(own, t, i + 1, valueRefs, keyRefs)
  {
    hide Shaped, Released;
    SkipReleased(t, i, ValueOf, valueRefs);
    SkipReleased(t, i, KeyOf, keyRefs);
  }

  lemma ReleaseEnd(own: Owning, t: Stores, valueRefs: multiset<Word>, keyRefs: multiset<Word>)
    requires Shaped(t) && ReleasedAs(own, t, |t.values|, valueRefs, keyRefs)
    ensures (own.values ==> valueRefs == multiset{}) && (own.keys ==> keyRefs == multiset{})
  {
    hide Shaped, Released;
    AllReleased(t, ValueOf, valueRefs);
    AllReleased(t, KeyOf, keyRefs);
  }

  /** `held` is what remains of the references of `t` after the first `n` slots were released. */
  ghost predicate Released(t: Stores, n: nat, f: Entry -> Word, held: multiset<Word>)
    requires Shaped(t) && n <= |t.values|
  {
    held + Bag(Slots(t)[..n], f) == Bag(Slots(t), f)
  }

  lemma NoneReleased(t: Stores, f: Entry -> Word)
    requires Shaped(t)
    ensures Released(t, 0, f, Bag(Slots(t), f))
  {
    assert Slots(t)[..0] == [];
  }

  lemma OneReleased(t: Stores, i: nat, f: Entry -> Word, held: multiset<Word>)
    requires Shaped(t) && i < |t.values| && Slots(t)[i].Live? && Released(t, i, f, held)
    ensures
      var w := f(Slots(t)[i].entry);
      w in held && Released(t, i + 1, f, held - multiset{w})
  {
    var s, w := Slots(t), f(Slots(t)[i].entry);
    assert s[..i + 1][..i] == s[..i];
    BagPrefix(s, f, i + 1);
    ReleaseStep(held, Bag(s[..i], f), w, Bag(s, f));
  }

  lemma SkipReleased(t: Stores, i: nat, f: Entry -> Word, held: multiset<Word>)
    requires Shaped(t) && i < |t.values| && IsMark(t.values[i])
    ensures Released(t, i, f, held) ==> Released(t, i + 1, f, held)
  {
    var s := Slots(t);
    assert s[..i + 1][..i] == s[..i];
  }

  lemma AllReleased(t: Stores, f: Entry -> Word, held: multiset<Word>)
    requires Shaped(t)
    ensures Released(t, |t.values|, f, held) ==> held == multiset{}
  {
    assert Slots(t)[..|t.values|] == Slots(t);
    if Released(t, |t.values|, f, held) {
      assert |held + Bag(Slots(t), f)| == |held| + |Bag(Slots(t), f)|;
    }
  }

  lemma Found(K: Keying, s: seq<Slot>, k: Word, idx: int, found: bool)
    requires Lawful(K) && DistinctKeys(K, s) && Search(K, s, k, idx, found)
    ensures found <==> k in Contents(K, s)
    ensures found ==> 0 <= idx < |s| && Holds(K, s, k, idx) && s[idx].entry == Contents(K, s)[k]
  {
    if found {
      ContentsAt(K, s, k, idx);
    } else {
      NotHeld(K, s, k);
    }
  }

  lemma EmptyView(K: Keying, t: Stores)
    requires |t.values| == 0 && |t.keys| == 0 && |t.counts| == 0
    ensures Shaped(t) && LiveSet(Slots(t)) == {} && TombSet(Slots(t)) == {}
    ensures Findable(K, Slots(t)) && DistinctKeys(K, Slots(t)) && Contents(K, Slots(t)) == imap[]
    ensures Bag(Slots(t), ValueOf) == multiset{} && Bag(Slots(t), KeyOf) == multiset{}
  {
    assert Slots(t) == [];
  }

  /** Releasing one reference that is held moves it from the held to the released ones. */
  lemma ReleaseStep(held: multiset<Word>, released: multiset<Word>, w: Word, all: multiset<Word>)
    requires held + released == all && released + multiset{w} <= all
    ensures w in held && held - multiset{w} + (released + multiset{w}) == all
  {
    assert all[w] >= released[w] + 1;
  }

  lemma LiveWords(t: Stores, i: nat)
    requires Shaped(t) && i < |t.values| && !IsMark(t.values[i])
    ensures Slots(t)[i].Live? && Slots(t)[i].entry.value == Load(t.values[i])
    ensures t.hasKeys ==> i < |t.keys| && Slots(t)[i].entry.key == Load(t.keys[i])
  {
  }

  lemma {:induction false} BagPrefix<T>(s: seq<Slot>, f: Entry -> T, n: nat)
    requires n <= |s|
    ensures Bag(s[..n], f) <= Bag(s, f)
  {
    if n == |s| {
      assert s[..n] == s;
    } else {
      var init := s[..|s| - 1];
      assert init[..n] == s[..n];
      BagPrefix(init, f, n);
    }
  }

  /** The raw words of a slot that holds a key, and the references they stand for. */
  lemma HeldSlot(K: Keying, t: Stores, b: nat, k: Word)
    requires Shaped(t) && b < |t.values| && Holds(K, Slots(t), k, b)
    ensures |t.keys| == (if t.hasKeys then |t.values| else 0) && |t.counts| == (if t.hasCounts then |t.values| else 0)
    ensures
      var e := Slots(t)[b].entry;
      && Slots(t)[b].Live? && !IsMark(t.values[b]) && Load(t.values[b]) == e.value
      && K.eq(e.key, k)
      && (t.hasKeys ==> !IsMark(t.keys[b]) && Load(t.keys[b]) == e.key)
      && (!t.hasKeys ==> e.key == e.value)
      && e.count == (if t.hasCounts then t.counts[b] else 1) && e.count > 0
      && e.value in Bag(Slots(t), ValueOf) && e.key in Bag(Slots(t), KeyOf)
  {
    BagUpdate(Slots(t), ValueOf, b, Empty);
    BagUpdate(Slots(t), KeyOf, b, Empty);
  }

  /** Overwriting an entry with one of an equal key. */
  lemma EqualSlot(K: Keying, t: Stores, b: nat, k: Word, v: Word, e: Entry)
    requires Lawful(K) && Shaped(t) && Findable(K, Slots(t)) && DistinctKeys(K, Slots(t))
    requires b < |t.values| && Legal(k) && Legal(v) && (!t.hasKeys ==> k == v)
    requires Holds(K, Slots(t), k, b) && Slots(t)[b].entry == e
    ensures b < |Written(t, b, k, v, e.count).values|
    ensures Shaped(Written(t, b, k, v, e.count)) && Written(t, b, k, v, e.count).counts == t.counts
    ensures
      var s, s' := Slots(t), Slots(Written(t, b, k, v, e.count));
      && Findable(K, s') && DistinctKeys(K, s')
      && LiveSet(s') == LiveSet(s) && TombSet(s') == TombSet(s)
      && Contents(K, s') == Put(K, Contents(K, s), Entry(k, v, e.count))
      && Bag(s', ValueOf) == Bag(s, ValueOf) + multiset{v} - multiset{e.value}
      && Bag(s', KeyOf) == Bag(s, KeyOf) + multiset{k} - multiset{e.key}
  {
    hide Findable, DistinctKeys, Contents, Lawful, Put, Bag, LiveSet, TombSet, Shaped, Slots, Holds, SlotAt, Written;
    HeldSlot(K, t, b, k);
    RewrittenSlots(t, b, k, v, e);
    EqualStored(K, Slots(t), b, k, v, e);
  }

  lemma RewrittenSlots(t: Stores, b: nat, k: Word, v: Word, e: Entry)
    requires Shaped(t) && b < |t.values| && Legal(k) && Legal(v) && (!t.hasKeys ==> k == v)
    requires Slots(t)[b] == Live(e)
    ensures |Written(t, b, k, v, e.count).values| == |t.values| && Written(t, b, k, v, e.count).counts == t.counts
    ensures Shaped(Written(t, b, k, v, e.count))
    ensures Slots(Written(t, b, k, v, e.count)) == Slots(t)[b := Live(Entry(k, v, e.count))]
  {
    WrittenSlots(t, b, k, v, e.count);
  }

  lemma EqualStored(K: Keying, s: seq<Slot>, b: nat, k: Word, v: Word, e: Entry)
    requires Lawful(K) && Findable(K, s) && DistinctKeys(K, s)
    requires b < |s| && s[b] == Live(e) && K.eq(e.key, k)
    ensures
      var s' := s[b := Live(Entry(k, v, e.count))];
      && Findable(K, s') && DistinctKeys(K, s')
      && LiveSet(s') == LiveSet(s) && TombSet(s') == TombSet(s)
      && Contents(K, s') == Put(K, Contents(K, s), Entry(k, v, e.count))
      && Bag(s', ValueOf) == Bag(s, ValueOf) + multiset{v} - multiset{e.value}
      && Bag(s', KeyOf) == Bag(s, KeyOf) + multiset{k} - multiset{e.key}
  {
    hide Findable, DistinctKeys, Contents, Lawful, Put, Bag, LiveSet, TombSet;
    StoreEqual(K, s, b, Entry(k, v, e.count));
    BagExchange(s, ValueOf, b, Entry(k, v, e.count));
    BagExchange(s, KeyOf, b, Entry(k, v, e.count));
  }

  lemma BagExchange<T>(s: seq<Slot>, f: Entry -> T, b: nat, e: Entry)
    requires b < |s| && s[b].Live?
    ensures Bag(s[b := Live(e)], f) == Bag(s, f) + multiset{f(e)} - multiset{f(s[b].entry)}
    ensures f(e) == f(s[b].entry) ==> Bag(s[b := Live(e)], f) == Bag(s, f)
  {
    BagUpdate(s, f, b, Live(e));
    assert Bag(s[b := Live(e)], f) == Bag(s[b := Live(e)], f) + One(s[b], f) - One(s[b], f);
  }

  lemma RecountedSlots(t: Stores, b: nat, count: nat)
    requires Shaped(t) && t.hasCounts && b < |t.values| && Slots(t)[b].Live? && count > 0
    ensures b < |t.counts| && Shaped(t.(counts := t.counts[b := count]))
    ensures Slots(t.(counts := t.counts[b := count])) == Slots(t)[b := Live(Slots(t)[b].entry.(count := count))]
  {
  }

  lemma RecountedSlot(K: Keying, t: Stores, b: nat, count: nat)
    requires Lawful(K) && Shaped(t) && Findable(K, Slots(t)) && DistinctKeys(K, Slots(t))
    requires t.hasCounts && b < |t.values| && Slots(t)[b].Live? && count > 0
    ensures
      var e := Slots(t)[b].entry;
      var t' := t.(counts := t.counts[b := count]);
      && Shaped(t') && Findable(K, Slots(t')) && DistinctKeys(K, Slots(t'))
      && LiveSet(Slots(t')) == LiveSet(Slots(t)) && TombSet(Slots(t')) == TombSet(Slots(t))
      && Contents(K, Slots(t')) == Put(K, Contents(K, Slots(t)), e.(count := count))
      && Bag(Slots(t'), ValueOf) == Bag(Slots(t), ValueOf)
      && Bag(Slots(t'), KeyOf) == Bag(Slots(t), KeyOf)
  {
    hide Findable, DistinctKeys, Contents, Put, Bag, LiveSet, TombSet, Shaped, Slots, SlotAt;
    RecountedSlots(t, b, count);
    var e, t' := Slots(t)[b].entry, t.(counts := t.counts[b := count]);
    var e' := e.(count := count);
    StoreEqual(K, Slots(t), b, e');
    BagExchange(Slots(t), ValueOf, b, e');
    BagExchange(Slots(t), KeyOf, b, e');
  }

  lemma BuriedSlot(K: Keying, t: Stores, b: nat, k: Word)
    requires Lawful(K) && Shaped(t) && Findable(K, Slots(t)) && DistinctKeys(K, Slots(t))
    requires b < |t.values| && Slots(t)[b].Live? && K.eq(Slots(t)[b].entry.key, k)
    ensures
      var e := Slots(t)[b].entry;
      var t' := Marked(t, b);
      && Shaped(t') && Findable(K, Slots(t')) && DistinctKeys(K, Slots(t'))
      && |LiveSet(Slots(t'))| == |LiveSet(Slots(t))| - 1
      && |TombSet(Slots(t'))| == |TombSet(Slots(t))| + 1
      && Contents(K, Slots(t')) == Drop(K, Contents(K, Slots(t)), k)
      && Bag(Slots(t'), ValueOf) == Bag(Slots(t), ValueOf) - multiset{e.value}
      && Bag(Slots(t'), KeyOf) == Bag(Slots(t), KeyOf) - multiset{e.key}
  {
    hide Findable, DistinctKeys, Contents, Drop, Bag, LiveSet, TombSet, Shaped, Slots, SlotAt, Marked, Lawful;
    var s := Slots(t);
    MarkedSlots(t, b);
    Bury(K, s, b);
    BagRemove(s, ValueOf, b);
    BagRemove(s, KeyOf, b);
    DropEqual(K, Contents(K, s), s[b].entry.key, k);
  }

  /** Erasing a slot keeps the table sound and balanced. */
  lemma BuriedTable(K: Keying, m: Stores, b: nat, k: Word, idx: nat, width: nat, own: Owning,
                    valueRefs: multiset<Word>, keyRefs: multiset<Word>)
    requires SoundAs(K, m, idx, width) && BalancedAs(own, m, valueRefs, keyRefs)
    requires b < |m.values| && Holds(K, Slots(m), k, b) && Slots(m)[b].entry.count == 1
    ensures WidthFits(m.counts, width) && (m.hasKeys ==> b < |m.keys|) && (m.hasCounts ==> b < |m.counts|)
    ensures !IsMark(m.values[b]) && (m.hasKeys ==> !IsMark(m.keys[b])) && (m.hasCounts ==> m.counts[b] == 1)
    ensures own.values ==> Load(m.values[b]) in valueRefs
    ensures own.keys && m.hasKeys ==> Load(m.keys[b]) in keyRefs
    ensures var m' := Marked(m, b);
      && SoundAs(K, m', idx, width) && Shaped(m')
      && BalancedAs(own, m', if own.values then valueRefs - multiset{Load(m.values[b])} else valueRefs,
                    if own.keys && m.hasKeys then keyRefs - multiset{Load(m.keys[b])} else keyRefs)
      && |LiveSet(Slots(m'))| == |LiveSet(Slots(m))| - 1
      && |TombSet(Slots(m'))| == |TombSet(Slots(m))| + 1
      && Contents(K, Slots(m')) == Drop(K, Contents(K, Slots(m)), k)
  {
    hide TableSize, Findable, DistinctKeys, Contents, Bag, Lawful, Slots, LiveSet, TombSet, Drop, Shaped, Holds, SlotAt;
    HeldSlot(K, m, b, k);
    BuriedSlot(K, m, b, k);
  }

  /** Overwriting a slot with an equal key keeps the table sound and balanced. */
  lemma EqualTable(K: Keying, m: Stores, b: nat, k: Word, v: Word, idx: nat, width: nat, own: Owning,
                   valueRefs: multiset<Word>, keyRefs: multiset<Word>)
    requires SoundAs(K, m, idx, width) && BalancedAs(own, m, valueRefs, keyRefs)
    requires b < |m.values| && Legal(k) && Legal(v) && (!m.hasKeys ==> k == v) && Holds(K, Slots(m), k, b)
    ensures Shaped(m) && Slots(m)[b].Live? && (m.hasKeys ==> b < |m.keys|) && (m.hasCounts ==> b < |m.counts|)
    ensures m.hasCounts ==> m.counts[b] == Slots(m)[b].entry.count
    ensures !IsMark(m.values[b]) && (m.hasKeys ==> !IsMark(m.keys[b]))
    ensures own.values ==> Load(m.values[b]) in valueRefs
    ensures own.keys && m.hasKeys ==> Load(m.keys[b]) in keyRefs
    ensures var m' := HashStores.Written(m, b, k, v, Slots(m)[b].entry.count);
      && SoundAs(K, m', idx, width) && Shaped(m')
      && BalancedAs(own, m', if own.values then valueRefs + multiset{v} - multiset{Load(m.values[b])} else valueRefs,
                    if own.keys && m.hasKeys then keyRefs + multiset{k} - multiset{Load(m.keys[b])} else keyRefs)
      && LiveSet(Slots(m')) == LiveSet(Slots(m)) && TombSet(Slots(m')) == TombSet(Slots(m))
      && Contents(K, Slots(m')) == Put(K, Contents(K, Slots(m)), Entry(k, v, Slots(m)[b].entry.count))
  {
    hide TableSize, Findable, DistinctKeys, Contents, Bag, Lawful, Slots, LiveSet, TombSet, Put, Shaped, Holds, SlotAt;
    HeldSlot(K, m, b, k);
    EqualSlot(K, m, b, k, v, Slots(m)[b].entry);
  }

  /** Filling a free slot keeps the table sound and balanced. */
  lemma NewTable(K: Keying, m: Stores, b: nat, k: Word, v: Word, idx: nat, width: nat, own: Owning,
                 valueRefs: multiset<Word>, keyRefs: multiset<Word>)
    requires SoundAs(K, m, idx, width) && BalancedAs(own, m, valueRefs, keyRefs)
    requires b < |m.values| && Legal(k) && Legal(v) && (!m.hasKeys ==> k == v)
    requires !Slots(m)[b].Live? && PathOpen(Slots(m), Start(K, k, |m.values|), b)
    requires forall i :: !Holds(K, Slots(m), k, i)
    ensures WidthFits(m.counts, width) && (m.hasKeys ==> b < |m.keys|) && (m.hasCounts ==> b < |m.counts|)
    ensures IsMark(m.values[b]) && (m.hasKeys ==> IsMark(m.keys[b])) && (m.hasCounts ==> m.counts[b] == 0)
    ensures var m' := HashStores.Written(m, b, k, v, 1);
      && (forall w :: WidthFits(m'.counts, w) ==> SoundAs(K, m', idx, w)) && Shaped(m')
      && BalancedAs(own, m', if own.values then valueRefs + multiset{v} else valueRefs,
                    if own.keys && m.hasKeys then keyRefs + multiset{k} else keyRefs)
      && |LiveSet(Slots(m'))| == |LiveSet(Slots(m))| + 1
      && TombSet(Slots(m')) == TombSet(Slots(m)) - {b}
      && Contents(K, Slots(m')) == Put(K, Contents(K, Slots(m)), Entry(k, v, 1))
  {
    hide TableSize, Findable, DistinctKeys, Contents, Bag, Lawful, Slots, LiveSet, TombSet, Put, Shaped, PathOpen;
    FreeSlot(m, b);
    NewSlot(K, m, b, k, v);
  }

  lemma BagRemove<T>(s: seq<Slot>, f: Entry -> T, b: nat)
    requires b < |s| && s[b].Live?
    ensures Bag(s[b := Tomb], f) == Bag(s, f) - multiset{f(s[b].entry)}
  {
    BagUpdate(s, f, b, Tomb);
    assert Bag(s[b := Tomb], f) == Bag(s[b := Tomb], f) + One(s[b], f) - One(s[b], f);
  }

  lemma DropEqual(K: Keying, m: imap<Word, Entry>, a: Word, b: Word)
    requires Lawful(K) && K.eq(a, b)
    ensures Drop(K, m, a) == Drop(K, m, b)
  {
  }

  lemma FreeSlot(t: Stores, b: nat)
    requires Shaped(t) && b < |t.values| && !Slots(t)[b].Live?
    ensures |t.keys| == (if t.hasKeys then |t.values| else 0) && |t.counts| == (if t.hasCounts then |t.values| else 0)
    ensures IsMark(t.values[b]) && (t.hasKeys ==> IsMark(t.keys[b])) && (t.hasCounts ==> t.counts[b] == 0)
  {
  }

  lemma SomeFree(s: seq<Slot>)
    requires |LiveSet(s)| < |s|
    ensures !forall i :: 0 <= i < |s| ==> s[i].Live?
  {
    var i := NotAllLive(s);
  }

  /** What writing a new key into a free bucket does to everything the table is judged by. */
  lemma NewSlot(K: Keying, t: Stores, b: nat, k: Word, v: Word)
    requires Lawful(K) && Shaped(t) && Findable(K, Slots(t)) && DistinctKeys(K, Slots(t))
    requires b < |t.values| && Legal(k) && Legal(v) && (!t.hasKeys ==> k == v)
    requires !Slots(t)[b].Live? && PathOpen(Slots(t), Start(K, k, |t.values|), b)
    requires forall i :: !Holds(K, Slots(t), k, i)
    ensures
      var t' := HashStores.Written(t, b, k, v, 1);
      && Shaped(t') && Findable(K, Slots(t')) && DistinctKeys(K, Slots(t'))
      && |LiveSet(Slots(t'))| == |LiveSet(Slots(t))| + 1
      && TombSet(Slots(t')) == TombSet(Slots(t)) - {b}
      && Contents(K, Slots(t')) == Put(K, Contents(K, Slots(t)), Entry(k, v, 1))
      && Bag(Slots(t'), ValueOf) == Bag(Slots(t), ValueOf) + multiset{v}
      && Bag(Slots(t'), KeyOf) == Bag(Slots(t), KeyOf) + multiset{k}
  {
    hide Findable, DistinctKeys, PathOpen, Contents, Lawful, Put;
    WrittenSlots(t, b, k, v, 1);
    var s, e := Slots(t), Entry(k, v, 1);
    StoreNew(K, s, b, e);
    BagUpdate(s, ValueOf, b, Live(e));
    BagUpdate(s, KeyOf, b, Live(e));
  }

  lemma MovedAll(K: Keying, from: Stores, to: Stores, width: nat)
    requires Lawful(K) && Shaped(from) && DistinctKeys(K, Slots(from)) && Moved(K, from, to, |from.values|, width)
    ensures to.hasKeys == from.hasKeys && to.hasCounts == from.hasCounts
    ensures Shaped(to) && CountsWithin(to, width)
    ensures Findable(K, Slots(to)) && DistinctKeys(K, Slots(to)) && TombSet(Slots(to)) == {}
    ensures SameBags(Slots(to), Slots(from))
    ensures |LiveSet(Slots(to))| == |LiveSet(Slots(from))|
    ensures Contents(K, Slots(to)) == Contents(K, Slots(from))
  {
    hide Findable, DistinctKeys, Lawful, TombSet, LiveSet, Contents, Shaped;
    assert Slots(from)[..|from.values|] == Slots(from);
    BagSize(Slots(from), Whole);
    BagSize(Slots(to), Whole);
    SameBagSameContents(K, Slots(from), Slots(to));
  }

  ghost predicate SameBags(s: seq<Slot>, u: seq<Slot>) {
    && Bag(s, Whole) == Bag(u, Whole)
    && Bag(s, ValueOf) == Bag(u, ValueOf)
    && Bag(s, KeyOf) == Bag(u, KeyOf)
  }

  ghost predicate CountsWithin(t: Stores, width: nat) {
    forall i :: 0 <= i < |t.counts| ==> t.counts[i] <= MaxCount(width)
  }

  /** The first `idx` slots of `from` have been moved to the stores `to`. */
  ghost predicate Moved(K: Keying, from: Stores, to: Stores, idx: nat, width: nat)
    requires Shaped(from) && idx <= |from.values|
  {
    && to.hasKeys == from.hasKeys && to.hasCounts == from.hasCounts
    && Shaped(to) && CountsWithin(to, width)
    && Findable(K, Slots(to)) && DistinctKeys(K, Slots(to)) && TombSet(Slots(to)) == {}
    && SameBags(Slots(to), Slots(from)[..idx])
  }

  lemma MovedNone(K: Keying, from: Stores, size: nat, width: nat)
    requires Shaped(from)
    ensures Moved(K, from, Cleared(from.hasKeys, from.hasCounts, size), 0, width)
  {
    var to := Cleared(from.hasKeys, from.hasCounts, size);
    hide Findable, DistinctKeys, SameBags, TombSet;
    ClearedIsSound(K, Slots(to));
    assert Slots(from)[..0] == [];
  }

  lemma MovedSkip(K: Keying, from: Stores, to: Stores, idx: nat, width: nat)
    requires Shaped(from) && idx < |from.values| && IsMark(from.values[idx])
    requires Moved(K, from, to, idx, width)
    ensures Moved(K, from, to, idx + 1, width)
  {
    SkipBags(Slots(from), idx);
  }

  /** The loop of `__CFBasicHashRehash`. */
  method MoveAll(K: Keying, from: Stores, size: nat, ghost width: nat) returns (to: Stores)
    requires Lawful(K) && Shaped(from) && DistinctKeys(K, Slots(from))
    requires |LiveSet(Slots(from))| <= size && CountsWithin(from, width)
    ensures |to.values| == size && Moved(K, from, to, |from.values|, width)
  {
    hide Moved, Shaped, Lawful, DistinctKeys, CountsWithin, Slots;
    to := Cleared(from.hasKeys, from.hasCounts, size);
    MovedNone(K, from, size, width);
    var idx := 0;
    while idx < |from.values|
      invariant 0 <= idx <= |from.values|
      invariant |to.values| == size && Moved(K, from, to, idx, width)
    {
      if !IsMark(from.values[idx]) {
        to := MoveOne(K, from, to, idx, width);
      } else {
        MovedSkip(K, from, to, idx, width);
      }
      idx := idx + 1;
    }
  }

  /** One turn of that loop on a live slot. */
  method MoveOne(K: Keying, from: Stores, into: Stores, idx: nat, ghost width: nat) returns (to: Stores)
    requires Lawful(K) && Shaped(from) && DistinctKeys(K, Slots(from)) && CountsWithin(from, width)
    requires idx < |from.values| && !IsMark(from.values[idx])
    requires Moved(K, from, into, idx, width)
    requires |LiveSet(Slots(from))| <= |into.values|
    ensures |to.values| == |into.values| && Moved(K, from, to, idx + 1, width)
  {
    hide Findable, DistinctKeys, SameBags, Lawful;
    ghost var s, u := Slots(from), Slots(into);
    ghost var e := s[idx].entry;
    var value := Load(from.values[idx]);
    var key := if from.hasKeys then Load(from.keys[idx]) else value;
    RoomLeft(s, u, idx);
    var b := FindEmpty(K, into, key);
    var count := if from.hasCounts then from.counts[idx] else 1;
    to := Written(into, b, key, value, count);
    WrittenSlots(into, b, key, value, count);
    KeyIsNew(K, s, u, idx);
    StoreNew(K, u, b, e);
    StoreBags(s, u, idx, b);
  }

  lemma ClearedIsSound(K: Keying, s: seq<Slot>)
    requires forall i :: 0 <= i < |s| ==> s[i].Empty?
    ensures Findable(K, s) && DistinctKeys(K, s) && SameBags(s, []) && TombSet(s) == {}
  {
    EmptyBag(s, Whole);
    EmptyBag(s, ValueOf);
    EmptyBag(s, KeyOf);
  }

  lemma {:induction false} EmptyBag<T>(s: seq<Slot>, f: Entry -> T)
    requires forall i :: 0 <= i < |s| ==> s[i].Empty?
    ensures Bag(s, f) == multiset{}
  {
    if s != [] {
      EmptyBag(s[..|s| - 1], f);
    }
  }

  lemma SkipBags(s: seq<Slot>, idx: nat)
    requires idx < |s| && !s[idx].Live?
    ensures SameBags(s[..idx + 1], s[..idx])
  {
    assert s[..idx + 1][..idx] == s[..idx];
  }

  /** Before the entry at `idx` is moved, the new stores hold fewer entries than there are. */
  lemma RoomLeft(s: seq<Slot>, u: seq<Slot>, idx: nat)
    requires idx < |s| && s[idx].Live? && SameBags(u, s[..idx])
    ensures |LiveSet(u)| < |LiveSet(s)|
  {
    BagSize(u, Whole);
    BagSize(s[..idx], Whole);
    assert idx !in LiveSet(s[..idx]);
    SubsetSize(LiveSet(s[..idx]) + {idx}, LiveSet(s));
  }

  lemma KeyIsNew(K: Keying, s: seq<Slot>, u: seq<Slot>, idx: nat)
    requires Lawful(K) && DistinctKeys(K, s) && idx < |s| && s[idx].Live? && SameBags(u, s[..idx])
    ensures forall j :: !Holds(K, u, s[idx].entry.key, j)
  {
    forall j | 0 <= j < |u| && u[j].Live? ensures !K.eq(u[j].entry.key, s[idx].entry.key) {
      BagHas(u, u[j].entry);
      BagHas(s[..idx], u[j].entry);
      var i :| 0 <= i < |s[..idx]| && s[..idx][i] == u[j];
      assert s[i] == u[j];
    }
  }

  lemma StoreBags(s: seq<Slot>, u: seq<Slot>, idx: nat, b: nat)
    requires idx < |s| && s[idx].Live? && b < |u| && !u[b].Live? && SameBags(u, s[..idx])
    ensures SameBags(u[b := s[idx]], s[..idx + 1])
  {
    hide Bag;
    StoreBag(s, u, Whole, idx, b);
    StoreBag(s, u, ValueOf, idx, b);
    StoreBag(s, u, KeyOf, idx, b);
  }

  lemma StoreBag<T>(s: seq<Slot>, u: seq<Slot>, f: Entry -> T, idx: nat, b: nat)
    requires idx < |s| && s[idx].Live? && b < |u| && !u[b].Live? && Bag(u, f) == Bag(s[..idx], f)
    ensures Bag(u[b := s[idx]], f) == Bag(s[..idx + 1], f)
  {
    assert s[..idx + 1][..idx] == s[..idx];
    BagUpdate(u, f, b, s[idx]);
  }
}
