/**
  Open addressing with linear probing and tombstones, as a sequence of slots: what the
  table denotes, when every entry can be found, and what storing, replacing and removing
  an entry do to it.
 */
module HashSlots {

  const WORD_MAX := 0xFFFF_FFFF_FFFF_FFFF
  type Word = w: int | 0 <= w <= WORD_MAX

  datatype Entry = Entry(key: Word, value: Word, count: nat)

  datatype Slot = Empty | Tomb | Live(entry: Entry)

  /** The callbacks on keys. */
  datatype Keying = Keying(hash: Word -> nat, eq: (Word, Word) -> bool)

  ghost predicate Lawful(K: Keying) {
    && (forall a :: K.eq(a, a))
    && (forall a, b :: K.eq(a, b) ==> K.eq(b, a))
    && (forall a, b, c :: K.eq(a, b) && K.eq(b, c) ==> K.eq(a, c))
    && (forall a, b :: K.eq(a, b) ==> K.hash(a) == K.hash(b))
  }

  // ---------- Probe sequences

  function Start(K: Keying, k: Word, n: nat): (h: nat)
    requires n > 0
    ensures h < n
  {
    K.hash(k) % n
  }

  /** The bucket looked at in step `j`. */
  function Probe(start: nat, j: nat, n: nat): (p: nat)
    requires start < n && j < n
    ensures p < n
  {
    if start + j < n then start + j else start + j - n
  }

  /** The step in which bucket `i` is looked at. */
  function Dist(start: nat, i: nat, n: nat): (j: nat)
    requires start < n && i < n
    ensures j < n && Probe(start, j, n) == i
  {
    if start <= i then i - start else i + n - start
  }

  /** No bucket before `i` on the probe sequence from `start` is empty. */
  ghost predicate PathOpen(s: seq<Slot>, start: nat, i: nat)
    requires start < |s| && i < |s|
  {
    forall j :: 0 <= j < Dist(start, i, |s|) ==> !s[Probe(start, j, |s|)].Empty?
  }

  /** Every bucket before `i` on the probe sequence from `start` is live. */
  ghost predicate PathLive(s: seq<Slot>, start: nat, i: nat)
    requires start < |s| && i < |s|
  {
    forall j :: 0 <= j < Dist(start, i, |s|) ==> s[Probe(start, j, |s|)].Live?
  }

  lemma LiveIsOpen(s: seq<Slot>, start: nat, i: nat)
    requires start < |s| && i < |s| && PathLive(s, start, i)
    ensures PathOpen(s, start, i)
  {
  }

  /** Every entry lies where a search for its key will get to it. */
  ghost predicate Findable(K: Keying, s: seq<Slot>) {
    forall i :: 0 <= i < |s| && s[i].Live? ==> PathOpen(s, Start(K, s[i].entry.key, |s|), i)
  }

  ghost predicate DistinctKeys(K: Keying, s: seq<Slot>) {
    forall i, j :: 0 <= i < |s| && 0 <= j < |s| && i != j && s[i].Live? && s[j].Live? ==>
      !K.eq(s[i].entry.key, s[j].entry.key)
  }

  ghost predicate Holds(K: Keying, s: seq<Slot>, k: Word, i: int) {
    0 <= i < |s| && s[i].Live? && K.eq(s[i].entry.key, k)
  }

  ghost predicate Has(K: Keying, s: seq<Slot>, k: Word) {
    exists i :: Holds(K, s, k, i)
  }

  ghost function EntryFor(K: Keying, s: seq<Slot>, k: Word): Entry
    requires Has(K, s, k)
  {
    var i :| Holds(K, s, k, i);
    s[i].entry
  }

  /** What the slots denote: an entry for every key equal to a stored one. */
  ghost function Contents(K: Keying, s: seq<Slot>): imap<Word, Entry> {
    imap k: Word | Has(K, s, k) :: EntryFor(K, s, k)
  }

  lemma ContentsAt(K: Keying, s: seq<Slot>, k: Word, i: int)
    requires Lawful(K) && DistinctKeys(K, s) && Holds(K, s, k, i)
    ensures k in Contents(K, s) && Contents(K, s)[k] == s[i].entry
  {
    assert Has(K, s, k);
    var i' :| Holds(K, s, k, i') && EntryFor(K, s, k) == s[i'].entry;
    assert K.eq(s[i].entry.key, s[i'].entry.key);
  }

  lemma NotHeld(K: Keying, s: seq<Slot>, k: Word)
    requires forall i :: !Holds(K, s, k, i)
    ensures k !in Contents(K, s)
  {
  }

  lemma NotHeldBack(K: Keying, s: seq<Slot>, k: Word)
    requires k !in Contents(K, s)
    ensures forall i :: !Holds(K, s, k, i)
  {
    assert !Has(K, s, k);
  }

  /** Equal keys stand for the same entry. */
  lemma SameKey(K: Keying, u: seq<Slot>, k: Word, q: Word)
    requires Lawful(K) && DistinctKeys(K, u) && K.eq(k, q)
    ensures k in Contents(K, u) <==> q in Contents(K, u)
    ensures k in Contents(K, u) ==> Contents(K, u)[k] == Contents(K, u)[q]
  {
    if k in Contents(K, u) {
      var j :| Holds(K, u, k, j);
      ContentsAt(K, u, k, j);
      ContentsAt(K, u, q, j);
    }
    if q in Contents(K, u) {
      var j :| Holds(K, u, q, j);
      ContentsAt(K, u, k, j);
    }
  }

  /** The table with `e` for every key equal to its own. */
  ghost function Put(K: Keying, m: imap<Word, Entry>, e: Entry): imap<Word, Entry> {
    imap k: Word | k in m || K.eq(e.key, k) :: if K.eq(e.key, k) then e else m[k]
  }

  /** The table without the keys equal to `k`. */
  ghost function Drop(K: Keying, m: imap<Word, Entry>, k: Word): imap<Word, Entry> {
    imap q: Word | q in m && !K.eq(k, q) :: m[q]
  }

  // ---------- Counting slots

  ghost function LiveSet(s: seq<Slot>): set<nat> {
    set i | 0 <= i < |s| && s[i].Live?
  }

  ghost function TombSet(s: seq<Slot>): set<nat> {
    set i | 0 <= i < |s| && s[i].Tomb?
  }

  ghost function Below(n: nat): (r: set<nat>)
    ensures |r| == n && forall i :: i in r <==> 0 <= i < n
  {
    if n == 0 then {} else Below(n - 1) + {n - 1}
  }

  lemma SubsetSize<T>(a: set<T>, b: set<T>)
    requires a <= b
    ensures |a| <= |b|
    ensures |a| == |b| ==> a == b
  {
    assert b == a + (b - a);
  }

  /** With fewer live slots than slots, some slot is free. */
  lemma NotAllLive(s: seq<Slot>) returns (i: nat)
    requires |LiveSet(s)| < |s|
    ensures i < |s| && !s[i].Live?
  {
    var free := Below(|s|) - LiveSet(s);
    assert Below(|s|) == LiveSet(s) + free;
    assert |free| > 0;
    i :| i in free;
  }

  // ---------- Searching

  /**
    The outcome of a search: the bucket with an equal key, or else the first bucket on the
    probe sequence that is not live, deleted or empty, and none only when all are live.
   */
  ghost predicate Search(K: Keying, s: seq<Slot>, k: Word, idx: int, found: bool) {
    && -1 <= idx < |s|
    && (found ==> idx >= 0 && Holds(K, s, k, idx))
    && (!found ==> forall i :: !Holds(K, s, k, i))
    && (!found && idx >= 0 ==> !s[idx].Live? && PathLive(s, Start(K, k, |s|), idx))
    && (!found && idx < 0 ==> forall i :: 0 <= i < |s| ==> s[i].Live?)
  }

  /** Steps `0..n` of a search have met neither the key nor an empty bucket. */
  ghost predicate Passed(K: Keying, s: seq<Slot>, k: Word, n: nat)
    requires |s| > 0 && n <= |s|
  {
    forall j :: 0 <= j < n ==>
      var x := s[Probe(Start(K, k, |s|), j, |s|)];
      !x.Empty? && (x.Live? ==> !K.eq(x.entry.key, k))
  }

  /** Meeting an empty bucket proves the key absent. */
  lemma EmptyMeansAbsent(K: Keying, s: seq<Slot>, k: Word, n: nat)
    requires Lawful(K) && Findable(K, s) && |s| > 0 && n < |s| && Passed(K, s, k, n)
    requires s[Probe(Start(K, k, |s|), n, |s|)].Empty?
    ensures forall i :: !Holds(K, s, k, i)
  {
    var start := Start(K, k, |s|);
    forall i ensures !Holds(K, s, k, i) {
      if 0 <= i < |s| && s[i].Live? {
        assert PathOpen(s, Start(K, s[i].entry.key, |s|), i);
        assert Probe(start, Dist(start, i, |s|), |s|) == i;
      }
    }
  }

  lemma AllPassedMeansAbsent(K: Keying, s: seq<Slot>, k: Word)
    requires |s| > 0 && Passed(K, s, k, |s|)
    ensures forall i :: !Holds(K, s, k, i)
    ensures forall i :: 0 <= i < |s| ==> !s[i].Empty?
  {
    forall i | 0 <= i < |s| ensures !s[i].Empty? && !Holds(K, s, k, i) {
      var j := Dist(Start(K, k, |s|), i, |s|);
      assert Probe(Start(K, k, |s|), j, |s|) == i;
    }
  }

  /** When every bucket met so far was live, the present one is the first that may not be. */
  lemma LiveSoFar(s: seq<Slot>, start: nat, n: nat)
    requires start < |s| && n < |s| && forall j :: 0 <= j < n ==> s[Probe(start, j, |s|)].Live?
    ensures PathLive(s, start, Probe(start, n, |s|))
  {
    assert Dist(start, Probe(start, n, |s|), |s|) == n;
  }

  // ---------- Changing one slot

  /** Storing a new key in a free bucket its search reaches. */
  lemma StoreNew(K: Keying, s: seq<Slot>, b: nat, e: Entry)
    requires Lawful(K) && Findable(K, s) && DistinctKeys(K, s)
    requires b < |s| && !s[b].Live? && PathOpen(s, Start(K, e.key, |s|), b)
    requires forall i :: !Holds(K, s, e.key, i)
    ensures Findable(K, s[b := Live(e)]) && DistinctKeys(K, s[b := Live(e)])
    ensures LiveSet(s[b := Live(e)]) == LiveSet(s) + {b} && b !in LiveSet(s)
    ensures TombSet(s[b := Live(e)]) == TombSet(s) - {b}
    ensures Contents(K, s[b := Live(e)]) == Put(K, Contents(K, s), e)
  {
    hide Findable, Contents;
    StoreNewFindable(K, s, b, e);
    forall j | 0 <= j < |s| && j != b && s[j].Live? ensures !K.eq(s[j].entry.key, e.key) {
      assert !Holds(K, s, e.key, j);
    }
    StoreContents(K, s, b, e);
  }

  lemma StoreNewFindable(K: Keying, s: seq<Slot>, b: nat, e: Entry)
    requires Findable(K, s) && b < |s| && PathOpen(s, Start(K, e.key, |s|), b)
    ensures Findable(K, s[b := Live(e)])
  {
    var s' := s[b := Live(e)];
    forall i | 0 <= i < |s| && s'[i].Live? ensures PathOpen(s', Start(K, s'[i].entry.key, |s|), i) {
      if i != b {
        assert PathOpen(s, Start(K, s[i].entry.key, |s|), i);
      }
    }
  }

  lemma StoreContents(K: Keying, s: seq<Slot>, b: nat, e: Entry)
    requires Lawful(K) && DistinctKeys(K, s) && b < |s| && DistinctKeys(K, s[b := Live(e)])
    requires s[b].Live? ==> K.eq(s[b].entry.key, e.key)
    requires forall i :: Holds(K, s, e.key, i) ==> i == b
    ensures Contents(K, s[b := Live(e)]) == Put(K, Contents(K, s), e)
  {
    hide Contents, Lawful, DistinctKeys, Holds;
    var s' := s[b := Live(e)];
    forall k: Word
      ensures k in Contents(K, s') <==> k in Contents(K, s) || K.eq(e.key, k)
      ensures k in Contents(K, s') ==>
                Contents(K, s')[k] == if K.eq(e.key, k) then e else Contents(K, s)[k]
    {
      StoredKey(K, s, b, e, k);
    }
  }

  lemma StoredKey(K: Keying, s: seq<Slot>, b: nat, e: Entry, k: Word)
    requires Lawful(K) && DistinctKeys(K, s) && b < |s| && DistinctKeys(K, s[b := Live(e)])
    requires s[b].Live? ==> K.eq(s[b].entry.key, e.key)
    requires forall i :: Holds(K, s, e.key, i) ==> i == b
    ensures var s' := s[b := Live(e)];
      && (k in Contents(K, s') <==> k in Contents(K, s) || K.eq(e.key, k))
      && (k in Contents(K, s') ==> Contents(K, s')[k] == if K.eq(e.key, k) then e else Contents(K, s)[k])
  {
    hide Contents, DistinctKeys;
    var s' := s[b := Live(e)];
    if K.eq(e.key, k) {
      assert Holds(K, s', k, b);
      ContentsAt(K, s', k, b);
    } else if i :| Holds(K, s, k, i) {
      assert Holds(K, s', k, i);
      ContentsAt(K, s, k, i);
      ContentsAt(K, s', k, i);
    } else {
      assert forall i :: Holds(K, s', k, i) ==> Holds(K, s, k, i);
      NotHeld(K, s, k);
      NotHeld(K, s', k);
    }
  }

  lemma StoreEqualFindable(K: Keying, s: seq<Slot>, b: nat, e: Entry)
    requires Lawful(K) && Findable(K, s)
    requires b < |s| && s[b].Live? && K.eq(s[b].entry.key, e.key)
    ensures Findable(K, s[b := Live(e)])
  {
    var s' := s[b := Live(e)];
    assert Start(K, e.key, |s|) == Start(K, s[b].entry.key, |s|);
    forall i | 0 <= i < |s| && s'[i].Live? ensures PathOpen(s', Start(K, s'[i].entry.key, |s|), i) {
      assert PathOpen(s, Start(K, s[i].entry.key, |s|), i);
    }
  }

  /** Replacing an entry by one with an equal key. */
  lemma StoreEqual(K: Keying, s: seq<Slot>, b: nat, e: Entry)
    requires Lawful(K) && Findable(K, s) && DistinctKeys(K, s)
    requires b < |s| && s[b].Live? && K.eq(s[b].entry.key, e.key)
    ensures Findable(K, s[b := Live(e)]) && DistinctKeys(K, s[b := Live(e)])
    ensures LiveSet(s[b := Live(e)]) == LiveSet(s) && TombSet(s[b := Live(e)]) == TombSet(s)
    ensures Contents(K, s[b := Live(e)]) == Put(K, Contents(K, s), e)
  {
    hide Findable, Contents;
    StoreEqualFindable(K, s, b, e);
    forall j | 0 <= j < |s| && j != b && s[j].Live? ensures !K.eq(s[j].entry.key, e.key) {
      assert !K.eq(s[j].entry.key, s[b].entry.key);
    }
    StoreContents(K, s, b, e);
  }

  lemma BuryFindable(K: Keying, s: seq<Slot>, b: nat)
    requires Findable(K, s) && b < |s|
    ensures Findable(K, s[b := Tomb])
  {
    var s' := s[b := Tomb];
    forall i | 0 <= i < |s| && s'[i].Live? ensures PathOpen(s', Start(K, s'[i].entry.key, |s|), i) {
      assert PathOpen(s, Start(K, s[i].entry.key, |s|), i);
    }
  }

  /** Removing an entry leaves a tombstone, so that other searches still pass. */
  lemma Bury(K: Keying, s: seq<Slot>, b: nat)
    requires Lawful(K) && Findable(K, s) && DistinctKeys(K, s)
    requires b < |s| && s[b].Live?
    ensures Findable(K, s[b := Tomb]) && DistinctKeys(K, s[b := Tomb])
    ensures LiveSet(s[b := Tomb]) == LiveSet(s) - {b} && b in LiveSet(s)
    ensures TombSet(s[b := Tomb]) == TombSet(s) + {b} && b !in TombSet(s)
    ensures Contents(K, s[b := Tomb]) == Drop(K, Contents(K, s), s[b].entry.key)
  {
    hide Findable, Contents;
    BuryFindable(K, s, b);
    BuryContents(K, s, b);
  }

  lemma BuryContents(K: Keying, s: seq<Slot>, b: nat)
    requires Lawful(K) && DistinctKeys(K, s) && b < |s| && s[b].Live?
    ensures Contents(K, s[b := Tomb]) == Drop(K, Contents(K, s), s[b].entry.key)
  {
    hide Contents, Lawful, DistinctKeys;
    var s' := s[b := Tomb];
    forall k: Word
      ensures k in Contents(K, s') <==> k in Contents(K, s) && !K.eq(s[b].entry.key, k)
      ensures k in Contents(K, s') ==> Contents(K, s')[k] == Contents(K, s)[k]
    {
      BuriedKey(K, s, b, k);
    }
  }

  lemma BuriedKey(K: Keying, s: seq<Slot>, b: nat, k: Word)
    requires Lawful(K) && DistinctKeys(K, s) && b < |s| && s[b].Live?
    ensures var s' := s[b := Tomb];
      && (k in Contents(K, s') <==> k in Contents(K, s) && !K.eq(s[b].entry.key, k))
      && (k in Contents(K, s') ==> Contents(K, s')[k] == Contents(K, s)[k])
  {
    hide Contents;
    var s' := s[b := Tomb];
    assert DistinctKeys(K, s');
    assert forall i :: Holds(K, s, k, i) && i != b ==> Holds(K, s', k, i);
    if i :| Holds(K, s', k, i) {
      assert Holds(K, s, k, i) && !K.eq(s[b].entry.key, s[i].entry.key);
      ContentsAt(K, s, k, i);
      ContentsAt(K, s', k, i);
    } else {
      NotHeld(K, s', k);
      if K.eq(s[b].entry.key, k) {
        ContentsAt(K, s, k, b);
      } else {
        NotHeld(K, s, k);
      }
    }
  }

  // ---------- The entries as a bag

  /** The multiset of what `f` gives for the live entries. */
  ghost function Bag<T>(s: seq<Slot>, f: Entry -> T): multiset<T> {
    if s == [] then multiset{}
    else Bag(s[..|s| - 1], f) + One(s[|s| - 1], f)
  }

  ghost function One<T>(x: Slot, f: Entry -> T): multiset<T> {
    if x.Live? then multiset{f(x.entry)} else multiset{}
  }

  function Whole(e: Entry): Entry { e }
  function ValueOf(e: Entry): Word { e.value }
  function KeyOf(e: Entry): Word { e.key }

  lemma Reorder<T>(a: multiset<T>, b: multiset<T>, c: multiset<T>, d: multiset<T>, e: multiset<T>)
    requires a + b == c + d
    ensures (a + e) + b == (c + e) + d
  {
    assert (a + e) + b == (a + b) + e;
    assert (c + e) + d == (c + d) + e;
  }

  lemma {:induction false} BagUpdate<T>(s: seq<Slot>, f: Entry -> T, b: nat, x: Slot)
    requires b < |s|
    ensures Bag(s[b := x], f) + One(s[b], f) == Bag(s, f) + One(x, f)
    ensures One(s[b], f) <= Bag(s, f)
  {
    hide One;
    var n := |s| - 1;
    var init := s[..n];
    if b < n {
      assert s[b := x][..n] == init[b := x];
      BagUpdate(init, f, b, x);
      assert init[b] == s[b];
      Reorder(Bag(init[b := x], f), One(s[b], f), Bag(init, f), One(x, f), One(s[n], f));
    } else {
      assert s[b := x][..n] == init;
      Reorder(Bag(init, f), multiset{}, Bag(init, f), multiset{}, One(x, f));
    }
  }

  lemma {:induction false} BagHas(s: seq<Slot>, e: Entry)
    ensures e in Bag(s, Whole) <==> exists i :: 0 <= i < |s| && s[i] == Live(e)
  {
    if s != [] {
      var n := |s| - 1;
      BagHas(s[..n], e);
      if i :| 0 <= i < |s| && s[i] == Live(e) {
        if i < n {
          assert s[..n][i] == Live(e);
        }
      }
    }
  }

  lemma {:induction false} BagSize<T>(s: seq<Slot>, f: Entry -> T)
    ensures |Bag(s, f)| == |LiveSet(s)|
  {
    if s != [] {
      var n := |s| - 1;
      BagSize(s[..n], f);
      assert LiveSet(s) == LiveSet(s[..n]) + (if s[n].Live? then {n} else {});
    }
  }

  /** Tables with the same entries denote the same thing. */
  lemma SameBagSameContents(K: Keying, s: seq<Slot>, u: seq<Slot>)
    requires Lawful(K) && DistinctKeys(K, s) && DistinctKeys(K, u)
    requires Bag(s, Whole) == Bag(u, Whole)
    ensures Contents(K, s) == Contents(K, u)
  {
    forall k: Word
      ensures k in Contents(K, s) <==> k in Contents(K, u)
      ensures k in Contents(K, s) ==> Contents(K, s)[k] == Contents(K, u)[k]
    {
      if i :| Holds(K, s, k, i) {
        SameBagHolds(K, s, u, k, i);
      } else if i :| Holds(K, u, k, i) {
        SameBagHolds(K, u, s, k, i);
      }
    }
  }

  lemma SameBagHolds(K: Keying, s: seq<Slot>, u: seq<Slot>, k: Word, i: int)
    requires Lawful(K) && DistinctKeys(K, s) && DistinctKeys(K, u)
    requires Bag(s, Whole) == Bag(u, Whole) && Holds(K, s, k, i)
    ensures k in Contents(K, s) && k in Contents(K, u) && Contents(K, s)[k] == Contents(K, u)[k]
  {
    var e := s[i].entry;
    BagHas(s, e);
    BagHas(u, e);
    var j :| 0 <= j < |u| && u[j] == Live(e);
    assert Holds(K, u, k, j);
    ContentsAt(K, s, k, i);
    ContentsAt(K, u, k, j);
  }
}
