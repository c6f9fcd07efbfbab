/** CFMutableArray: values in the middle of a buffer, with room kept at both ends. */
module ArrayDeque {
  import opened Machine
  import opened Ordering

  const NULL: Item := 0

  // Leaves room for the slack a reallocation adds.
  const MAX_COUNT := MAX_CAPACITY - 0x4000

  /** The buckets `b` after `n` buckets of `from`, from bucket `f` on, are copied to bucket `d`. */
  ghost function Moved(b: seq<Item>, d: nat, from: seq<Item>, f: nat, n: nat): (r: seq<Item>)
    requires d + n <= |b| && f + n <= |from|
    ensures |r| == |b|
  {
    b[..d] + from[f..f + n] + b[d + n..]
  }

  /** `memmove` of `n` buckets; the regions may overlap. */
  method MemMove(dst: array<Item>, d: nat, src: array<Item>, s: nat, n: nat)
    requires d + n <= dst.Length && s + n <= src.Length
    modifies dst
    ensures dst[..] == Moved(old(dst[..]), d, old(src[..]), s, n)
  {
    forall i | d <= i < d + n {
      dst[i] := src[s + (i - d)];
    }
  }

  /** `memset` of `n` buckets to zero. */
  method MemZero(dst: array<Item>, d: nat, n: nat)
    requires d + n <= dst.Length
    modifies dst
    ensures dst[..] == Moved(old(dst[..]), d, seq(n, _ => NULL), 0, n)
  {
    forall i | d <= i < d + n {
      dst[i] := NULL;
    }
  }

  /** Regions A and C of the values `s` lie in the buckets around a gap of `newCount`. */
  ghost predicate Gapped(b: seq<Item>, left: nat, s: seq<Item>, loc: nat, len: nat, newCount: nat)
    requires loc + len <= |s|
  {
    && left + |s| - len + newCount <= |b|
    && b[left..left + loc] == s[..loc]
    && b[left + loc + newCount..left + |s| - len + newCount] == s[loc + len..]
  }

  /** Moving buckets leaves the slices it does not touch. */
  lemma MovedBeside(b: seq<Item>, d: nat, from: seq<Item>, f: nat, n: nat, lo: nat, hi: nat)
    requires d + n <= |b| && f + n <= |from| && lo <= hi <= |b| && (hi <= d || d + n <= lo)
    ensures Moved(b, d, from, f, n)[lo..hi] == b[lo..hi]
  {
  }

  /** Moving buckets puts the source slice at the target. */
  lemma MovedThere(b: seq<Item>, d: nat, from: seq<Item>, f: nat, n: nat)
    requires d + n <= |b| && f + n <= |from|
    ensures Moved(b, d, from, f, n)[d..d + n] == from[f..f + n]
  {
  }

  /** Moving region C changes the gap. */
  lemma GapMoveC(b: seq<Item>, left: nat, s: seq<Item>, loc: nat, len: nat, gap: nat, gap': nat)
    requires loc + len <= |s| && Gapped(b, left, s, loc, len, gap) && left + |s| - len + gap' <= |b|
    ensures Gapped(Moved(b, left + loc + gap', b, left + loc + gap, |s| - loc - len), left, s, loc, len, gap')
  {
    hide Moved;
    MovedThere(b, left + loc + gap', b, left + loc + gap, |s| - loc - len);
    MovedBeside(b, left + loc + gap', b, left + loc + gap, |s| - loc - len, left, left + loc);
  }

  /** Moving region A changes the gap and the left end. */
  lemma GapMoveA(b: seq<Item>, left: nat, s: seq<Item>, loc: nat, len: nat, gap: nat, newL: nat)
    requires loc + len <= |s| && Gapped(b, left, s, loc, len, gap) && newL <= left + gap
    ensures Gapped(Moved(b, newL, b, left, loc), newL, s, loc, len, left + gap - newL)
  {
    hide Moved;
    MovedThere(b, newL, b, left, loc);
    MovedBeside(b, newL, b, left, loc, left + loc + gap, left + |s| - len + gap);
  }

  /** Writing beside regions A and C leaves them. */
  lemma GapBeside(b: seq<Item>, left: nat, s: seq<Item>, loc: nat, len: nat, gap: nat,
                  d: nat, from: seq<Item>, f: nat, n: nat)
    requires loc + len <= |s| && Gapped(b, left, s, loc, len, gap) && d + n <= |b| && f + n <= |from|
    requires d + n <= left || (left + loc <= d && d + n <= left + loc + gap) || left + |s| - len + gap <= d
    ensures Gapped(Moved(b, d, from, f, n), left, s, loc, len, gap)
  {
    hide Moved;
    MovedBeside(b, d, from, f, n, left, left + loc);
    MovedBeside(b, d, from, f, n, left + loc + gap, left + |s| - len + gap);
  }

  /** Clearing the range to be replaced leaves regions A and C. */
  lemma ClearedGap(b: seq<Item>, left: nat, s: seq<Item>, loc: nat, len: nat, b': seq<Item>)
    requires loc + len <= |s| && left + |s| <= |b| && b[left..left + |s|] == s && |b'| == |b|
    requires forall i :: 0 <= i < |b| && !(left + loc <= i < left + loc + len) ==> b'[i] == b[i]
    ensures Gapped(b', left, s, loc, len, len)
  {
    SliceOfSlice(b, left, |s|, 0, loc);
    SliceOfSlice(b, left, |s|, loc + len, |s| - loc - len);
    assert b'[left..left + loc] == b[left..left + loc];
    assert b'[left + loc + len..left + |s|] == b[left + loc + len..left + |s|];
  }

  /** Filling the gap completes the splice. */
  lemma GapFilled(b: seq<Item>, left: nat, s: seq<Item>, loc: nat, len: nat, new_: seq<Item>)
    requires loc + len <= |s| && Gapped(b, left, s, loc, len, |new_|)
    ensures Moved(b, left + loc, new_, 0, |new_|)[left..left + |s| - len + |new_|] == Spliced(s, loc, len, new_)
  {
    var b' := Moved(b, left + loc, new_, 0, |new_|);
    var end := left + |s| - len + |new_|;
    MovedThere(b, left + loc, new_, 0, |new_|);
    MovedBeside(b, left + loc, new_, 0, |new_|, left, left + loc);
    MovedBeside(b, left + loc, new_, 0, |new_|, left + loc + |new_|, end);
    ThreeSlices(b', left, left + loc, left + loc + |new_|, end);
  }

  lemma ThreeSlices(b: seq<Item>, i: nat, j: nat, k: nat, l: nat)
    requires i <= j <= k <= l <= |b|
    ensures b[i..l] == b[i..j] + b[j..k] + b[k..l]
  {
  }

  lemma SpliceBag(s: seq<Item>, loc: nat, len: nat, new_: seq<Item>)
    requires loc + len <= |s|
    ensures multiset(Spliced(s, loc, len, new_)) + multiset(s[loc..loc + len]) == multiset(s) + multiset(new_)
  {
    assert s == s[..loc] + s[loc..loc + len] + s[loc + len..];
  }

  lemma Ledger(retained: multiset<Item>, released: multiset<Item>, was: multiset<Item>, added: multiset<Item>,
               dropped: multiset<Item>, now: multiset<Item>)
    requires now + dropped == was + added
    ensures retained == released + was ==> retained + added == released + dropped + now
  {
    if retained == released + was {
      forall x ensures (retained + added)[x] == (released + dropped + now)[x] {
        assert (now + dropped)[x] == (was + added)[x];
      }
    }
  }

  /** Copying regions A and C to another buffer. */
  lemma GapCopy(b: seq<Item>, left: nat, s: seq<Item>, loc: nat, len: nat, b': seq<Item>, newL: nat, gap: nat)
    requires loc + len <= |s| && Gapped(b, left, s, loc, len, len) && newL + |s| - len + gap <= |b'|
    ensures Gapped(Moved(Moved(b', newL, b, left, loc), newL + loc + gap, b, left + loc + len, |s| - loc - len),
                   newL, s, loc, len, gap)
  {
    hide Moved;
    var n := |s| - loc - len;
    var c0 := newL + loc + gap;
    var mid := Moved(b', newL, b, left, loc);
    MovedThere(b', newL, b, left, loc);
    MovedThere(mid, c0, b, left + loc + len, n);
    MovedBeside(mid, c0, b, left + loc + len, n, newL, newL + loc);
    assert c0 + n == newL + |s| - len + gap && left + loc + len + n == left + |s|;
  }

  ghost function Spliced(s: seq<Item>, loc: nat, len: nat, new_: seq<Item>): seq<Item>
    requires loc + len <= |s|
  {
    s[..loc] + new_ + s[loc + len..]
  }

  /** An exchange, place by place. */
  lemma SwappedAt(s: seq<Item>, i: nat, j: nat)
    requires i < |s| && j < |s|
    ensures Swapped(s, i, j) == s[i := s[j]][j := s[i]]
    ensures var s' := Swapped(s, i, j);
      |s'| == |s| && s'[i] == s[j] && s'[j] == s[i] && forall k :: 0 <= k < |s| && k != i && k != j ==> s'[k] == s[k]
  {
  }

  lemma SplicedIs(s: seq<Item>, loc: nat, len: nat, new_: seq<Item>)
    requires loc + len <= |s|
    ensures Spliced(s, loc, len, new_) == s[..loc] + new_ + s[loc + len..]
  {
  }

  class MutableArray {
    const retains: bool
    const releases: bool
    var count: nat
    var store: array?<Item>
    var leftIdx: nat
    ghost var retained: multiset<Item>
    ghost var released: multiset<Item>

    ghost predicate Shape()
      reads `store, `leftIdx, `count, store
    {
      && (store == null ==> count == 0)
      && (store != null ==> leftIdx + count <= store.Length <= MAX_CAPACITY)
    }

    ghost function Contents(): (s: seq<Item>)
      reads `store, `leftIdx, `count, store
      requires Shape()
      ensures |s| == count
    {
      if store == null then [] else store[leftIdx..leftIdx + count]
    }

    /** The values lie inside the buffer, and an array that retains and releases owns exactly its values. */
    ghost predicate Valid()
      reads this, store
    {
      Shape() && Owns(Contents())
    }

    ghost predicate Owns(s: seq<Item>)
      reads `retained, `released
    {
      retains && releases ==> retained == released + multiset(s)
    }

    constructor (retains: bool, releases: bool)
      ensures Valid() && Contents() == [] && store == null
      ensures this.retains == retains && this.releases == releases
    {
      this.retains, this.releases := retains, releases;
      count, store, leftIdx := 0, null, 0;
      retained, released := multiset{}, multiset{};
    }

    /** Releases the values of buckets `from` to `from + len` and clears the buckets. */
    method ReleaseBuckets(buf: array<Item>, from: nat, len: nat)
      requires from + len <= buf.Length
      modifies this`released, buf
      ensures released == if releases then old(released) + multiset(old(buf[..])[from..from + len]) else old(released)
      ensures forall i :: 0 <= i < buf.Length && !(from <= i < from + len) ==> buf[i] == old(buf[i])
    {
      ghost var was := buf[..][from..from + len];
      var idx := 0;
      while idx < len
        invariant 0 <= idx <= len
        invariant forall i :: 0 <= i < buf.Length && !(from <= i < from + idx) ==> buf[i] == old(buf[i])
        invariant released == if releases then old(released) + multiset(was[..idx]) else old(released)
      {
        assert was[..idx + 1] == was[..idx] + [was[idx]];
        if releases {
          released := released + multiset{buf[from + idx]};
        }
        buf[from + idx] := NULL;
        idx := idx + 1;
      }
      assert was[..len] == was;
    }

    method ReleaseRange(buf: array<Item>, loc: nat, len: nat, ghost s: seq<Item>)
      requires leftIdx + |s| <= buf.Length && loc + len <= |s| && buf[..][leftIdx..leftIdx + |s|] == s
      modifies this`released, buf
      ensures released == if releases then old(released) + multiset(s[loc..loc + len]) else old(released)
      ensures Gapped(buf[..], leftIdx, s, loc, len, len)
    {
      hide Gapped;
      ghost var b: seq<Item> := buf[..];
      SliceOfSlice(b, leftIdx, |s|, loc, len);
      ReleaseBuckets(buf, leftIdx + loc, len);
      ClearedGap(b, leftIdx, s, loc, len, buf[..]);
    }

    /** `__CFArrayReleaseValues` for a deque. */
    method ReleaseValues(loc: nat, len: nat, releaseStorageIfPossible: bool, ghost s: seq<Item>)
      requires Shape() && Contents() == s && loc + len <= count
      modifies this`count, this`store, this`released, store
      ensures released == if releases then old(released) + multiset(s[loc..loc + len]) else old(released)
      ensures releaseStorageIfPossible && loc == 0 && len == old(count) ==> store == null && count == 0
      ensures !(releaseStorageIfPossible && loc == 0 && len == old(count)) ==>
                && store == old(store) && count == old(count)
                && (store != null ==> Gapped(store[..], leftIdx, s, loc, len, len))
    {
      hide Gapped;
      if store != null {
        assert store[..][leftIdx..leftIdx + count] == s;
        ReleaseRange(store, loc, len, s);
      }
      if releaseStorageIfPossible && loc == 0 && count == len {
        count, store := 0, null;
      }
    }

    // ---------- Making the gap

    /** `__CFArrayRepositionDequeRegions`. The values of the replaced range are dead already. */
    method Reposition(loc: nat, len: nat, newCount: nat, ghost s: seq<Item>)
      requires Shape() && store != null && loc + len <= count == |s| && len != newCount
      requires count - len + newCount <= MAX_COUNT
      requires Gapped(store[..], leftIdx, s, loc, len, len)
      modifies this`store, this`leftIdx, store
      ensures store != null && (store == old(store) || fresh(store)) && store.Length <= MAX_CAPACITY
      ensures Gapped(store[..], leftIdx, s, loc, len, newCount)
    {
      var buf := store;
      var futureCnt := count - len + newCount;
      var L, A, B := leftIdx, loc, len;
      var C := count - B - A;
      var R := buf.Length - count - L;
      var numNewElems := newCount - B;
      var wiggle := if buf.Length / 0x2_0000 < 4 then 4 else buf.Length / 0x2_0000;
      if buf.Length < futureCnt || (count < futureCnt && L + R < wiggle) {
        Reallocate(loc, len, newCount, s, futureCnt + wiggle);
        return;
      }
      if (numNewElems < 0 && C < A) || (numNewElems <= R && C < A) {
        MoveRight(buf, loc, len, newCount, s);
      } else if numNewElems < 0 || (numNewElems <= L && A <= C) {
        MoveLeft(buf, loc, len, newCount, s);
      } else {
        Recenter(buf, loc, len, newCount, s);
      }
    }

    method Reallocate(loc: nat, len: nat, newCount: nat, ghost s: seq<Item>, room: nat)
      requires Shape() && store != null && loc + len <= count == |s|
      requires count - len + newCount <= room < MAX_CAPACITY
      requires Gapped(store[..], leftIdx, s, loc, len, len)
      modifies this`store, this`leftIdx
      ensures store != null && fresh(store) && store.Length <= MAX_CAPACITY
      ensures Gapped(store[..], leftIdx, s, loc, len, newCount)
    {
      hide Moved, Gapped, RoundUpCapacity;
      var C := count - len - loc;
      var capacity := RoundUpCapacity(room);
      RoundUpBound(room);
      var newBuckets := new Item[capacity];
      var newL := (capacity - (count - len + newCount)) / 2;
      GapCopy(store[..], leftIdx, s, loc, len, newBuckets[..], newL, newCount);
      MemMove(newBuckets, newL, store, leftIdx, loc);
      MemMove(newBuckets, newL + loc + newCount, store, leftIdx + loc + len, C);
      store, leftIdx := newBuckets, newL;
    }

    method MoveRight(buf: array<Item>, loc: nat, len: nat, newCount: nat, ghost s: seq<Item>)
      requires Shape() && store == buf && loc + len <= count == |s|
      requires newCount - len <= buf.Length - count - leftIdx
      requires Gapped(buf[..], leftIdx, s, loc, len, len)
      modifies buf
      ensures Gapped(buf[..], leftIdx, s, loc, len, newCount)
    {
      hide Moved, Gapped;
      var C := count - len - loc;
      var oldC0, newC0 := leftIdx + loc + len, leftIdx + loc + newCount;
      GapMoveC(buf[..], leftIdx, s, loc, len, len, newCount);
      MemMove(buf, newC0, buf, oldC0, C);
      if oldC0 > newC0 {
        GapBeside(buf[..], leftIdx, s, loc, len, newCount, newC0 + C, seq(oldC0 - newC0, _ => NULL), 0, oldC0 - newC0);
        MemZero(buf, newC0 + C, oldC0 - newC0);
      }
    }

    method MoveLeft(buf: array<Item>, loc: nat, len: nat, newCount: nat, ghost s: seq<Item>)
      requires Shape() && store == buf && loc + len <= count == |s|
      requires newCount - len <= leftIdx
      requires Gapped(buf[..], leftIdx, s, loc, len, len)
      modifies buf, this`leftIdx
      ensures Gapped(buf[..], leftIdx, s, loc, len, newCount)
    {
      hide Moved, Gapped;
      var oldL, newL := leftIdx, leftIdx - (newCount - len);
      leftIdx := newL;
      GapMoveA(buf[..], oldL, s, loc, len, len, newL);
      MemMove(buf, newL, buf, oldL, loc);
      if newL > oldL {
        GapBeside(buf[..], newL, s, loc, len, newCount, oldL, seq(newL - oldL, _ => NULL), 0, newL - oldL);
        MemZero(buf, oldL, newL - oldL);
      }
    }

    method Recenter(buf: array<Item>, loc: nat, len: nat, newCount: nat, ghost s: seq<Item>)
      requires Shape() && store == buf && loc + len <= count == |s|
      requires newCount > len && count - len + newCount <= buf.Length
      requires Gapped(buf[..], leftIdx, s, loc, len, len)
      modifies buf, this`leftIdx
      ensures Gapped(buf[..], leftIdx, s, loc, len, newCount)
    {
      hide Moved, Gapped;
      var C := count - len - loc;
      var oldL := leftIdx;
      var newL := (buf.Length - count - (newCount - len)) / 2;
      newL := newL - newL / 2;
      var oldC0, newC0 := oldL + loc + len, newL + loc + newCount;
      leftIdx := newL;
      if newL < oldL {
        GapMoveA(buf[..], oldL, s, loc, len, len, newL);
        MemMove(buf, newL, buf, oldL, loc);
        GapMoveC(buf[..], newL, s, loc, len, oldL + len - newL, newCount);
        MemMove(buf, newC0, buf, oldC0, C);
        if oldC0 > newC0 {
          GapBeside(buf[..], newL, s, loc, len, newCount, newC0 + C, seq(oldC0 - newC0, _ => NULL), 0, oldC0 - newC0);
          MemZero(buf, newC0 + C, oldC0 - newC0);
        }
      } else {
        GapMoveC(buf[..], oldL, s, loc, len, len, newC0 - oldL - loc);
        MemMove(buf, newC0, buf, oldC0, C);
        GapMoveA(buf[..], oldL, s, loc, len, newC0 - oldL - loc, newL);
        MemMove(buf, newL, buf, oldL, loc);
        if newL > oldL {
          GapBeside(buf[..], newL, s, loc, len, newCount, oldL, seq(newL - oldL, _ => NULL), 0, newL - oldL);
          MemZero(buf, oldL, newL - oldL);
        }
      }
    }

    // ---------- The operations

    /** `_CFArrayReplaceValues`. */
    method ReplaceValues(loc: nat, len: nat, newValues: seq<Item>)
      requires Valid() && loc + len <= count && count - len + |newValues| <= MAX_COUNT
      modifies this, store
      ensures Valid() && (store == null || store == old(store) || fresh(store))
      ensures Contents() == Spliced(old(Contents()), loc, len, newValues)
      ensures Contents() == old(Contents())[..loc] + newValues + old(Contents())[loc + len..]
      ensures retained == if retains then old(retained) + multiset(newValues) else old(retained)
      ensures released == if releases then old(released) + multiset(old(Contents())[loc..loc + len]) else old(released)
    {
      hide Gapped, Moved, Spliced, Owns;
      ghost var s := Contents();
      SpliceBag(s, loc, len, newValues);
      OwnsMeans(s);
      ghost var retained0, released0 := retained, released;
      if retains {
        retained := retained + multiset(newValues);
      }
      MakeGap(loc, len, |newValues|);
      OwnsAfter(retained0, released0, s, multiset(newValues), multiset(s[loc..loc + len]), Spliced(s, loc, len, newValues));
      FillGap(loc, len, newValues, s);
      SplicedIs(s, loc, len, newValues);
    }

    lemma OwnsMeans(s: seq<Item>)
      requires Owns(s)
      ensures retains && releases ==> retained == released + multiset(s)
    {
    }

    lemma OwnsAfter(retained0: multiset<Item>, released0: multiset<Item>, s: seq<Item>,
                    added: multiset<Item>, dropped: multiset<Item>, s': seq<Item>)
      requires retains && releases ==> retained0 == released0 + multiset(s)
      requires multiset(s') + dropped == multiset(s) + added
      requires retained == if retains then retained0 + added else retained0
      requires released == if releases then released0 + dropped else released0
      ensures Owns(s')
    {
      Ledger(retained0, released0, multiset(s), added, dropped, multiset(s'));
    }

    method FillGap(loc: nat, len: nat, newValues: seq<Item>, ghost s: seq<Item>)
      requires store != null && loc + len <= |s| == count && store.Length <= MAX_CAPACITY
      requires Gapped(store[..], leftIdx, s, loc, len, |newValues|)
      modifies store, this`count
      ensures Shape() && Contents() == Spliced(s, loc, len, newValues)
    {
      hide Moved, Spliced;
      GapFilled(store[..], leftIdx, s, loc, len, newValues);
      CopyIn(store, leftIdx + loc, newValues);
      count := count - len + |newValues|;
      assert Contents() == store[..][leftIdx..leftIdx + count];
    }

    /** `CFArrayGetValueAtIndex`. */
    method GetValueAtIndex(idx: nat) returns (value: Item)
      requires Shape() && idx < count
      ensures value == Contents()[idx]
    {
      value := store[leftIdx + idx];
    }

    /** `CFArrayAppendValue`. */
    method AppendValue(value: Item)
      requires Valid() && count < MAX_COUNT
      modifies this, store
      ensures Valid() && (store == null || store == old(store) || fresh(store))
      ensures Contents() == old(Contents()) + [value]
    {
      ReplaceValues(count, 0, [value]);
    }

    /** `CFArrayInsertValueAtIndex`. */
    method InsertValueAtIndex(idx: nat, value: Item)
      requires Valid() && idx <= count < MAX_COUNT
      modifies this, store
      ensures Valid() && (store == null || store == old(store) || fresh(store))
      ensures Contents() == old(Contents())[..idx] + [value] + old(Contents())[idx..]
    {
      ReplaceValues(idx, 0, [value]);
    }

    /** `CFArrayRemoveValueAtIndex`. */
    method RemoveValueAtIndex(idx: nat)
      requires Valid() && idx < count <= MAX_COUNT + 1
      modifies this, store
      ensures Valid() && (store == null || store == old(store) || fresh(store))
      ensures Contents() == old(Contents())[..idx] + old(Contents())[idx + 1..]
    {
      ghost var s := Contents();
      ReplaceValues(idx, 1, []);
      assert s[..idx] + [] == s[..idx];
    }

    /** `CFArraySetValueAtIndex`: one past the end appends. */
    method SetValueAtIndex(idx: nat, value: Item)
      requires Valid() && idx <= count && (idx == count ==> count < MAX_COUNT)
      modifies this, store
      ensures Valid() && (store == null || store == old(store) || fresh(store))
      ensures Contents() == if idx == old(count) then old(Contents()) + [value] else old(Contents())[idx := value]
    {
      if idx == count {
        AppendValue(value);
      } else {
        UpdateValue(idx, value);
      }
    }

    method UpdateValue(idx: nat, value: Item)
      requires Valid() && idx < count
      modifies this`retained, this`released, store
      ensures Valid() && Contents() == old(Contents())[idx := value]
      ensures retained == if retains then old(retained) + multiset{value} else old(retained)
      ensures released == if releases then old(released) + multiset{old(Contents())[idx]} else old(released)
    {
      hide Owns, Contents, Shape;
      ghost var s := Contents();
      UpdateBag(s, idx, value);
      var oldValue := SetBucket(idx, value);
      Exchanged(value, oldValue, s, Contents());
    }

    /** Books a retained and a released value. */
    ghost method Exchanged(value: Item, oldValue: Item, s: seq<Item>, s': seq<Item>)
      requires Owns(s) && multiset(s') + multiset{oldValue} == multiset(s) + multiset{value}
      modifies this`retained, this`released
      ensures Owns(s')
      ensures retained == if retains then old(retained) + multiset{value} else old(retained)
      ensures released == if releases then old(released) + multiset{oldValue} else old(released)
    {
      Ledger(retained, released, multiset(s), multiset{value}, multiset{oldValue}, multiset(s'));
      if retains {
        retained := retained + multiset{value};
      }
      if releases {
        released := released + multiset{oldValue};
      }
    }

    method SetBucket(idx: nat, value: Item) returns (oldValue: Item)
      requires Shape() && idx < count
      modifies store
      ensures Shape() && Contents() == old(Contents())[idx := value] && oldValue == old(Contents())[idx]
    {
      oldValue := store[leftIdx + idx];
      store[leftIdx + idx] := value;
    }

    /** `CFArrayExchangeValuesAtIndices`: nothing is retained or released. */
    method ExchangeValuesAtIndices(idx1: nat, idx2: nat)
      requires Valid() && idx1 < count && idx2 < count
      modifies store
      ensures Valid() && Contents() == Swapped(old(Contents()), idx1, idx2) && |Contents()| == |old(Contents())|
      ensures Contents()[idx1] == old(Contents())[idx2] && Contents()[idx2] == old(Contents())[idx1]
      ensures forall i :: 0 <= i < count && i != idx1 && i != idx2 ==> Contents()[i] == old(Contents())[i]
    {
      hide Owns, Contents, Shape, Swapped;
      ghost var s := Contents();
      SwapBag(s, idx1, idx2);
      OwnsSame(s, Swapped(s, idx1, idx2));
      SwappedAt(s, idx1, idx2);
      SwapBuckets(idx1, idx2);
    }

    method SwapBuckets(idx1: nat, idx2: nat)
      requires Shape() && idx1 < count && idx2 < count
      modifies store
      ensures Shape() && Contents() == old(Contents()[idx1 := Contents()[idx2]][idx2 := Contents()[idx1]])
    {
      hide Contents, Shape;
      var item2 := GetValueAtIndex(idx2);
      var tmp := SetBucket(idx1, item2);
      var _ := SetBucket(idx2, tmp);
    }

    lemma OwnsSame(s: seq<Item>, s': seq<Item>)
      requires Owns(s) && multiset(s') == multiset(s)
      ensures Owns(s')
    {
    }

    /** `CFArrayRemoveAllValues`: everything is released and the buffer given back. */
    method RemoveAllValues()
      requires Valid()
      modifies this, store
      ensures Valid() && Contents() == [] && store == null
      ensures retained == old(retained)
      ensures released == if releases then old(released) + multiset(old(Contents())) else old(released)
    {
      ghost var s := Contents();
      assert s[0..count] == s;
      ReleaseValues(0, count, true, s);
      count := 0;
    }

    // ---------- Sorting and searching

    /** `__CFZSort`: bubble sort by exchanges, for arrays with only one of the two callbacks. */
    method ZSort(loc: nat, len: nat, cmp: Comparator)
      requires Valid() && loc + len <= count && Orders(cmp)
      modifies store
      ensures Valid() && Rearranged(old(Contents()), Contents(), loc, len)
      ensures Sorted(cmp, Contents()[loc..loc + len])
      ensures forall i, j :: loc <= i < j < loc + len ==> cmp(Contents()[i], Contents()[j]) <= 0
      ensures multiset(Contents()[loc..loc + len]) == multiset(old(Contents())[loc..loc + len])
      ensures Contents()[..loc] == old(Contents())[..loc] && Contents()[loc + len..] == old(Contents())[loc + len..]
    {
      hide Orders, Rearranged, Shape, Owns, TailSorted, Bubbling;
      ghost var s := Contents();
      SortStart(cmp, s, loc, len);
      var cnt: nat := len;
      while 1 < cnt
        invariant Valid() && Shape() && cnt <= len && |Contents()| == |s| == count
        invariant Rearranged(s, Contents(), loc, len)
        invariant TailSorted(cmp, Contents(), loc, len, cnt)
      {
        cnt := BubblePass(loc, len, cnt, cmp, s);
      }
      SortEnd(cmp, Contents(), loc, len, cnt);
      InOrderThere(cmp, s, Contents(), loc, len);
    }

    method BubblePass(loc: nat, len: nat, cnt: nat, cmp: Comparator, ghost s: seq<Item>) returns (cnt': nat)
      requires Valid() && Shape() && 1 < cnt <= len && loc + len <= count && Orders(cmp) && |Contents()| == |s| == count
      requires Rearranged(s, Contents(), loc, len) && TailSorted(cmp, Contents(), loc, len, cnt)
      modifies store
      ensures Valid() && Shape() && cnt' == cnt - 1 && |Contents()| == |s| == count
      ensures Rearranged(s, Contents(), loc, len) && TailSorted(cmp, Contents(), loc, len, cnt')
    {
      hide Orders, Rearranged, Shape, Contents, Owns, TailSorted, Bubbling, Swapped;
      BubbleStart(cmp, Contents(), loc, len, cnt);
      var idx := loc;
      while idx < loc + cnt - 1
        invariant Valid() && Shape() && loc <= idx <= loc + cnt - 1 && |Contents()| == |s| == count
        invariant Rearranged(s, Contents(), loc, len)
        invariant Bubbling(cmp, Contents(), loc, len, cnt, idx)
      {
        var a := GetValueAtIndex(idx);
        var b := GetValueAtIndex(idx + 1);
        BubbleStep(cmp, s, Contents(), loc, len, cnt, idx);
        if cmp(b, a) < 0 {
          ExchangeValuesAtIndices(idx, idx + 1);
        }
        idx := idx + 1;
      }
      BubbleEnd(cmp, Contents(), loc, len, cnt);
      cnt' := cnt - 1;
    }

    /**
      `CFArrayBSearchValues` on a sorted range: the first place whose value is not below
      `value`, or the end of the range.
     */
    method BSearchValues(loc: nat, len: nat, value: Item, cmp: Comparator) returns (idx: nat)
      requires Shape() && loc + len <= count && Orders(cmp) && Sorted(cmp, Contents()[loc..loc + len])
      ensures loc <= idx <= loc + len
      ensures forall i :: loc <= i < idx ==> cmp(Contents()[i], value) < 0
      ensures forall i :: idx <= i < loc + len ==> cmp(Contents()[i], value) >= 0
    {
      hide Orders, Sorted, BelowTo, NotBelowFrom, Contents, Shape;
      if len == 0 {
        return loc;
      }
      ghost var s := Contents()[loc..loc + len];
      var last := RangeValue(loc, len, len - 1, s);
      Below(cmp, s, value, len - 1);
      if cmp(last, value) < 0 {
        SearchPlaces(cmp, Contents(), s, loc, value, len);
        return loc + len;
      }
      var first := RangeValue(loc, len, 0, s);
      Below(cmp, s, value, 0);
      if cmp(value, first) < 0 {
        SearchPlaces(cmp, Contents(), s, loc, value, 0);
        return loc;
      }
      var at := Halve(loc, len, value, cmp, s);
      SearchPlaces(cmp, Contents(), s, loc, value, at + 1);
      idx := loc + at + 1;
    }

    method RangeValue(loc: nat, len: nat, i: nat, ghost s: seq<Item>) returns (value: Item)
      requires Shape() && loc + len <= count && s == Contents()[loc..loc + len] && i < len
      ensures value == s[i]
    {
      value := GetValueAtIndex(loc + i);
    }

    /** The last place of the range below `value`, by halving a power of two. */
    method Halve(loc: nat, len: nat, value: Item, cmp: Comparator, ghost s: seq<Item>) returns (at: int)
      requires Shape() && 0 < len && loc + len <= count && s == Contents()[loc..loc + len]
      requires Orders(cmp) && Sorted(cmp, s)
      ensures -1 <= at < len && BelowTo(cmp, s, value, at + 1) && NotBelowFrom(cmp, s, value, at + 1)
    {
      hide Orders, Sorted, BelowTo, NotBelowFrom, Contents, Shape;
      var lg: nat := Digits(len) - 1;
      var item := RangeValue(loc, len, Pow2(lg) - 1, s);
      HalveStart(cmp, s, value, lg);
      at := if cmp(item, value) < 0 then len - Pow2(lg) else -1;
      while lg > 0
        invariant -1 <= at && at + Pow2(lg) <= len
        invariant BelowTo(cmp, s, value, at + 1) && NotBelowFrom(cmp, s, value, at + Pow2(lg))
      {
        lg := lg - 1;
        item := RangeValue(loc, len, at + Pow2(lg), s);
        Below(cmp, s, value, at + Pow2(lg));
        if cmp(item, value) < 0 {
          at := at + Pow2(lg);
        }
      }
    }

    /** A first buffer with the gap in its middle. */
    method FirstStore(newCount: nat)
      requires newCount <= MAX_COUNT
      modifies this`store, this`leftIdx
      ensures store != null && fresh(store) && store.Length <= MAX_CAPACITY
      ensures Gapped(store[..], leftIdx, [], 0, 0, newCount)
    {
      hide Gapped;
      var capacity := RoundUpCapacity(newCount);
      RoundUpBound(newCount);
      store := new Item[capacity];
      leftIdx := (capacity - newCount) / 2;
      EmptyGap(store[..], leftIdx, newCount);
    }

    /** Releases the range and opens a gap of `newCount` buckets in its place. */
    method MakeGap(loc: nat, len: nat, newCount: nat)
      requires Shape() && loc + len <= count && count - len + newCount <= MAX_COUNT
      modifies this`count, this`store, this`leftIdx, this`released, store
      ensures count == old(count)
      ensures released == if releases then old(released) + multiset(old(Contents())[loc..loc + len]) else old(released)
      ensures store != null && (store == old(store) || fresh(store)) && store.Length <= MAX_CAPACITY
      ensures Gapped(store[..], leftIdx, old(Contents()), loc, len, newCount)
    {
      hide Gapped;
      ghost var s := Contents();
      if 0 < len {
        ReleaseValues(loc, len, false, s);
      } else if store != null {
        ClearedGap(store[..], leftIdx, s, loc, len, store[..]);
      }
      if store == null {
        FirstStore(newCount);
      } else if len != newCount {
        Reposition(loc, len, newCount, s);
      }
    }
  }

  lemma UpdateBag(s: seq<Item>, idx: nat, value: Item)
    requires idx < |s|
    ensures multiset(s[idx := value]) + multiset{s[idx]} == multiset(s) + multiset{value}
  {
  }

  ghost function Swapped(s: seq<Item>, i: nat, j: nat): seq<Item>
    requires i < |s| && j < |s|
  {
    s[i := s[j]][j := s[i]]
  }

  lemma SwapBag(s: seq<Item>, i: nat, j: nat)
    requires i < |s| && j < |s|
    ensures multiset(Swapped(s, i, j)) == multiset(s)
  {
  }

  /** The range holds the same values in some order, and the rest of the array is as it was. */
  ghost predicate Rearranged(s: seq<Item>, s': seq<Item>, loc: nat, len: nat)
    requires loc + len <= |s|
  {
    && |s'| == |s| && s'[..loc] == s[..loc] && s'[loc + len..] == s[loc + len..]
    && multiset(s'[loc..loc + len]) == multiset(s[loc..loc + len])
  }

  /** The values of the range from place `cnt` on are in order and at least as large as those before. */
  ghost predicate TailSorted(cmp: Comparator, s: seq<Item>, loc: nat, len: nat, cnt: nat)
    requires loc + len <= |s|
  {
    forall i, j :: loc <= i < j < loc + len && loc + cnt <= j ==> cmp(s[i], s[j]) <= 0
  }

  ghost predicate Bubbling(cmp: Comparator, s: seq<Item>, loc: nat, len: nat, cnt: nat, idx: nat)
    requires loc + len <= |s| && idx < |s|
  {
    TailSorted(cmp, s, loc, len, cnt) && forall i :: loc <= i < idx ==> cmp(s[i], s[idx]) <= 0
  }

  lemma SortStart(cmp: Comparator, s: seq<Item>, loc: nat, len: nat)
    requires loc + len <= |s|
    ensures Rearranged(s, s, loc, len) && TailSorted(cmp, s, loc, len, len)
  {
  }

  lemma SortEnd(cmp: Comparator, s: seq<Item>, loc: nat, len: nat, cnt: nat)
    requires loc + len <= |s| && cnt <= 1 && TailSorted(cmp, s, loc, len, cnt)
    ensures Sorted(cmp, s[loc..loc + len])
  {
  }

  lemma BubbleStart(cmp: Comparator, s: seq<Item>, loc: nat, len: nat, cnt: nat)
    requires loc + len <= |s| && 1 < cnt <= len && TailSorted(cmp, s, loc, len, cnt)
    ensures Bubbling(cmp, s, loc, len, cnt, loc)
  {
  }

  lemma BubbleEnd(cmp: Comparator, s: seq<Item>, loc: nat, len: nat, cnt: nat)
    requires loc + len <= |s| && 1 < cnt <= len && Bubbling(cmp, s, loc, len, cnt, loc + cnt - 1)
    ensures TailSorted(cmp, s, loc, len, cnt - 1)
  {
  }

  lemma SwapRearranges(s: seq<Item>, s': seq<Item>, loc: nat, len: nat, idx: nat)
    requires loc + len <= |s| && loc <= idx && idx + 1 < loc + len && Rearranged(s, s', loc, len)
    ensures Rearranged(s, Swapped(s', idx, idx + 1), loc, len)
  {
    hide Swapped;
    var u := Swapped(s', idx, idx + 1);
    var m := s'[loc..loc + len];
    SwapSlices(s', loc, len, idx);
    SwapBag(m, idx - loc, idx + 1 - loc);
  }

  lemma SwapSlices(s: seq<Item>, loc: nat, len: nat, idx: nat)
    requires loc + len <= |s| && loc <= idx && idx + 1 < loc + len
    ensures var u := Swapped(s, idx, idx + 1);
      && |u| == |s| && u[..loc] == s[..loc] && u[loc + len..] == s[loc + len..]
      && u[loc..loc + len] == Swapped(s[loc..loc + len], idx - loc, idx + 1 - loc)
  {
  }

  lemma BubbleStep(cmp: Comparator, s: seq<Item>, s': seq<Item>, loc: nat, len: nat, cnt: nat, idx: nat)
    requires loc + len <= |s| && 1 < cnt <= len && loc <= idx < loc + cnt - 1 && Orders(cmp)
    requires Rearranged(s, s', loc, len) && |s'| == |s| && Bubbling(cmp, s', loc, len, cnt, idx)
    ensures cmp(s'[idx + 1], s'[idx]) >= 0 ==> Bubbling(cmp, s', loc, len, cnt, idx + 1)
    ensures cmp(s'[idx + 1], s'[idx]) < 0 ==> Rearranged(s, Swapped(s', idx, idx + 1), loc, len)
    ensures cmp(s'[idx + 1], s'[idx]) < 0 ==> Bubbling(cmp, Swapped(s', idx, idx + 1), loc, len, cnt, idx + 1)
  {
    SwapRearranges(s, s', loc, len, idx);
    if cmp(s'[idx + 1], s'[idx]) >= 0 {
      forall i | loc <= i < idx + 1 ensures cmp(s'[i], s'[idx + 1]) <= 0 {
        if i < idx {
          OrderTrans(cmp, s'[i], s'[idx], s'[idx + 1]);
        }
      }
    } else {
      var u := Swapped(s', idx, idx + 1);
      assert cmp(u[idx], u[idx + 1]) <= 0;
      assert forall i :: loc <= i < idx ==> u[i] == s'[i];
    }
  }

  /** The sorted range, place by place. */
  lemma InOrderThere(cmp: Comparator, s: seq<Item>, s': seq<Item>, loc: nat, len: nat)
    requires loc + len <= |s| && Rearranged(s, s', loc, len) && Sorted(cmp, s'[loc..loc + len])
    ensures |s'| == |s| && s'[..loc] == s[..loc] && s'[loc + len..] == s[loc + len..]
    ensures multiset(s'[loc..loc + len]) == multiset(s[loc..loc + len])
    ensures forall i, j :: loc <= i < j < loc + len ==> cmp(s'[i], s'[j]) <= 0
  {
    var r := s'[loc..loc + len];
    forall i, j | loc <= i < j < loc + len ensures cmp(s'[i], s'[j]) <= 0 {
      assert r[i - loc] == s'[i] && r[j - loc] == s'[j];
    }
  }

  ghost predicate BelowTo(cmp: Comparator, s: seq<Item>, value: Item, k: nat)
    requires k <= |s|
  {
    forall i :: 0 <= i < k ==> cmp(s[i], value) < 0
  }

  ghost predicate NotBelowFrom(cmp: Comparator, s: seq<Item>, value: Item, k: nat)
    requires k <= |s|
  {
    forall i :: k <= i < |s| ==> cmp(s[i], value) >= 0
  }

  /** In a sorted range the values below a given one come first. */
  lemma Below(cmp: Comparator, s: seq<Item>, value: Item, k: nat)
    requires Orders(cmp) && Sorted(cmp, s) && k < |s|
    ensures cmp(s[k], value) < 0 ==> BelowTo(cmp, s, value, k + 1)
    ensures cmp(s[k], value) >= 0 ==> NotBelowFrom(cmp, s, value, k)
    ensures cmp(value, s[k]) < 0 ==> cmp(s[k], value) >= 0
    ensures BelowTo(cmp, s, value, 0) && NotBelowFrom(cmp, s, value, |s|)
  {
    forall i, j | 0 <= i < j < |s| && cmp(s[j], value) < 0 ensures cmp(s[i], value) < 0 {
      if cmp(s[i], value) >= 0 {
        OrderTrans(cmp, value, s[i], s[j]);
      }
    }
  }

  lemma HalveStart(cmp: Comparator, s: seq<Item>, value: Item, lg: nat)
    requires Orders(cmp) && Sorted(cmp, s) && 0 < |s| && Pow2(lg) <= |s| < Pow2(lg + 1)
    ensures cmp(s[Pow2(lg) - 1], value) < 0 ==> BelowTo(cmp, s, value, |s| - Pow2(lg) + 1)
    ensures cmp(s[Pow2(lg) - 1], value) >= 0 ==> NotBelowFrom(cmp, s, value, Pow2(lg) - 1)
    ensures BelowTo(cmp, s, value, 0) && NotBelowFrom(cmp, s, value, |s|)
  {
    Below(cmp, s, value, Pow2(lg) - 1);
  }

  lemma SearchPlaces(cmp: Comparator, c: seq<Item>, s: seq<Item>, loc: nat, value: Item, at: nat)
    requires loc + |s| <= |c| && s == c[loc..loc + |s|] && at <= |s|
    requires BelowTo(cmp, s, value, at) && NotBelowFrom(cmp, s, value, at)
    ensures forall i :: loc <= i < loc + at ==> cmp(c[i], value) < 0
    ensures forall i :: loc + at <= i < loc + |s| ==> cmp(c[i], value) >= 0
  {
    assert forall i :: loc <= i < loc + |s| ==> c[i] == s[i - loc];
  }

  // ---------- Whole runs

  datatype Op =
    | Append(v: Item)
    | Insert(at: nat, v: Item)
    | Set(at: nat, v: Item)
    | Remove(at: nat)
    | Exchange(i: nat, j: nat)
    | Replace(at: nat, len: nat, values: seq<Item>)
    | RemoveAll

  /** The operation's indices are in range and the result is not too long. */
  predicate Allowed(op: Op, count: nat) {
    match op
    case Append(_) => count < MAX_COUNT
    case Insert(at, _) => at <= count < MAX_COUNT
    case Set(at, _) => at <= count && (at == count ==> count < MAX_COUNT)
    case Remove(at) => at < count <= MAX_COUNT + 1
    case Exchange(i, j) => i < count && j < count
    case Replace(at, len, values) => at + len <= count && count - len + |values| <= MAX_COUNT
    case RemoveAll => true
  }

  ghost function Effect(s: seq<Item>, op: Op): seq<Item>
    requires Allowed(op, |s|)
  {
    match op
    case Append(v) => s + [v]
    case Insert(at, v) => s[..at] + [v] + s[at..]
    case Set(at, v) => if at == |s| then s + [v] else s[at := v]
    case Remove(at) => s[..at] + s[at + 1..]
    case Exchange(i, j) => Swapped(s, i, j)
    case Replace(at, len, values) => Spliced(s, at, len, values)
    case RemoveAll => []
  }

  ghost predicate AllAllowed(s: seq<Item>, ops: seq<Op>)
    decreases |ops|
  {
    ops != [] ==> Allowed(ops[0], |s|) && AllAllowed(Effect(s, ops[0]), ops[1..])
  }

  ghost function Effects(s: seq<Item>, ops: seq<Op>): seq<Item>
    requires AllAllowed(s, ops)
    decreases |ops|
  {
    if ops == [] then s else Effects(Effect(s, ops[0]), ops[1..])
  }

  /** Whatever is done to it, the array holds what a plain list would, and owns exactly that. */
  method Run(a: MutableArray, ops: seq<Op>)
    requires a.Valid() && AllAllowed(a.Contents(), ops)
    modifies a, a.store
    ensures a.Valid() && a.Contents() == Effects(old(a.Contents()), ops)
    decreases |ops|
  {
    hide MutableArray.Owns, Effect;
    if ops != [] {
      Perform(a, ops[0]);
      Run(a, ops[1..]);
    }
  }

  method Perform(a: MutableArray, op: Op)
    requires a.Valid() && Allowed(op, |a.Contents()|)
    modifies a, a.store
    ensures a.Valid() && a.Contents() == Effect(old(a.Contents()), op)
    ensures a.store == null || a.store == old(a.store) || fresh(a.store)
  {
    hide MutableArray.Owns, MutableArray.Contents, Swapped, Spliced;
    match op
    case Append(v) => a.AppendValue(v);
    case Insert(at, v) => a.InsertValueAtIndex(at, v);
    case Set(at, v) => a.SetValueAtIndex(at, v);
    case Remove(at) => a.RemoveValueAtIndex(at);
    case Exchange(i, j) => a.ExchangeValuesAtIndices(i, j);
    case Replace(at, len, values) => a.ReplaceValues(at, len, values);
    case RemoveAll => a.RemoveAllValues();
  }

  /** Copies `values` into the buckets from `d` on. */
  method CopyIn(dst: array<Item>, d: nat, values: seq<Item>)
    requires d + |values| <= dst.Length
    modifies dst
    ensures dst[..] == Moved(old(dst[..]), d, values, 0, |values|)
  {
    forall i | d <= i < d + |values| {
      dst[i] := values[i - d];
    }
  }

  lemma EmptyGap(b: seq<Item>, left: nat, newCount: nat)
    requires left + newCount <= |b|
    ensures Gapped(b, left, [], 0, 0, newCount)
  {
  }
}
