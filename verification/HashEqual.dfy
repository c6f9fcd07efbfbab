/** Comparing two tables by scanning only the first. */
module HashEqual {
  import opened HashSlots
  import opened HashTables
  import opened HashStores
  import opened Machine
  import opened BasicHash
  import opened HashRuns

  // ---------- Totals

  /** The sum of the counts of the live slots. */
  ghost function Total(s: seq<Slot>): nat {
    if s == [] then 0
    else Total(s[..|s| - 1]) + if s[|s| - 1].Live? then s[|s| - 1].entry.count else 0
  }

  /** Every live slot counts at least one, as in every shaped table. */
  ghost predicate Positive(s: seq<Slot>) {
    forall i :: 0 <= i < |s| && s[i].Live? ==> s[i].entry.count > 0
  }

  lemma {:induction false} NothingLive(s: seq<Slot>)
    requires Positive(s)
    ensures Total(s) == 0 <==> forall i :: 0 <= i < |s| ==> !s[i].Live?
  {
    if s != [] {
      NothingLive(s[..|s| - 1]);
      assert forall i :: 0 <= i < |s| - 1 ==> s[..|s| - 1][i] == s[i];
    }
  }

  lemma {:induction false} TotalWithout(s: seq<Slot>, j: nat)
    requires j < |s| && s[j].Live?
    ensures Total(s[j := Empty]) == Total(s) - s[j].entry.count
  {
    var n := |s| - 1;
    if j == n {
      assert s[j := Empty][..n] == s[..n];
    } else {
      assert s[j := Empty][..n] == s[..n][j := Empty];
      TotalWithout(s[..n], j);
    }
  }

  lemma {:induction false} TotalOfOnes(s: seq<Slot>)
    requires forall i :: 0 <= i < |s| && s[i].Live? ==> s[i].entry.count == 1
    ensures Total(s) == |LiveSet(s)|
  {
    if s != [] {
      var n := |s| - 1;
      TotalOfOnes(s[..n]);
      assert LiveSet(s) == LiveSet(s[..n]) + if s[n].Live? then {n} else {};
    }
  }

  /** `CFBasicHashGetCount`: the total, in the 64 bits of a `CFIndex`. */
  method GetCount(t: Table) returns (total: nat)
    requires t.Valid()
    ensures total == Total(t.View()) % TWO64 && (!t.hasCounts ==> total == t.usedBuckets)
  {
    InUse(t);
    if t.hasCounts {
      total := CountAll(t.Now());
    } else {
      TotalOfOnes(t.View());
      TableTop(t.numBucketsIdx);
      total := t.usedBuckets;
    }
  }

  method CountAll(m: Stores) returns (total: nat)
    requires Shaped(m) && m.hasCounts
    ensures total == Total(Slots(m)) % TWO64
  {
    hide Slots;
    total := 0;
    var idx := 0;
    while idx < |m.values|
      invariant 0 <= idx <= |m.values| && total == Total(Slots(m)[..idx]) % TWO64
    {
      TotalSnoc(m, idx);
      WrapAdd(Total(Slots(m)[..idx]), m.counts[idx]);
      total := (total + m.counts[idx]) % TWO64;
      idx := idx + 1;
    }
    assert Slots(m)[..idx] == Slots(m);
  }

  lemma TotalSnoc(m: Stores, idx: nat)
    requires Shaped(m) && m.hasCounts && idx < |m.values|
    ensures Total(Slots(m)[..idx + 1]) == Total(Slots(m)[..idx]) + m.counts[idx]
  {
    assert Slots(m)[..idx + 1][..idx] == Slots(m)[..idx];
  }

  lemma WrapAdd(x: nat, y: nat)
    ensures (x % TWO64 + y) % TWO64 == (x + y) % TWO64
  {
    var q := x / TWO64;
    assert x + y == x % TWO64 + y + TWO64 * q;
  }

  // ---------- Matching slots

  /** What the scan asks of a pair of buckets; a dictionary compares values too. */
  predicate Agrees(withValues: bool, valueEq: (Word, Word) -> bool, e: Entry, f: Entry) {
    e.count == f.count && (withValues ==> e.value == f.value || valueEq(e.value, f.value))
  }

  /** Two tables denote the same: equal keys throughout, with agreeing entries. */
  ghost predicate SameEntries(withValues: bool, valueEq: (Word, Word) -> bool,
                              a: imap<Word, Entry>, b: imap<Word, Entry>) {
    && (forall k :: k in a <==> k in b)
    && forall k :: k in a ==> Agrees(withValues, valueEq, a[k], b[k])
  }

  /** Every live slot below `n` has a partner with an equal key and the same count. */
  ghost predicate Partnered(K: Keying, s: seq<Slot>, n: nat, u: seq<Slot>)
    requires n <= |s|
  {
    forall i :: 0 <= i < n && s[i].Live? ==>
      exists j :: Holds(K, u, s[i].entry.key, j) && u[j].entry.count == s[i].entry.count
  }

  /** No live slot of `s` below `n` has a key equal to that of slot `j`. */
  ghost predicate Unclaimed(K: Keying, s: seq<Slot>, n: nat, u: seq<Slot>, j: nat)
    requires n <= |s| && j < |u| && u[j].Live?
  {
    forall i :: 0 <= i < n && s[i].Live? ==> !K.eq(u[j].entry.key, s[i].entry.key)
  }

  /** Crossing out the partners one by one leaves the unclaimed slots and the remaining total. */
  lemma {:induction false} CrossOut(K: Keying, s: seq<Slot>, n: nat, u: seq<Slot>) returns (left: seq<Slot>)
    requires Lawful(K) && DistinctKeys(K, s) && DistinctKeys(K, u)
    requires n <= |s| && Partnered(K, s, n, u)
    ensures |left| == |u| && Total(s[..n]) + Total(left) == Total(u)
    ensures forall j :: 0 <= j < |u| ==> left[j] == u[j] || left[j].Empty?
    ensures forall j :: 0 <= j < |u| && u[j].Live? ==> (left[j].Live? <==> Unclaimed(K, s, n, u, j))
  {
    if n == 0 {
      left := u;
    } else {
      assert s[..n][..n - 1] == s[..n - 1];
      left := CrossOut(K, s, n - 1, u);
      if s[n - 1].Live? {
        left := CrossOne(K, s, n - 1, u, left);
      }
    }
  }

  lemma CrossOne(K: Keying, s: seq<Slot>, n: nat, u: seq<Slot>, left: seq<Slot>) returns (left': seq<Slot>)
    requires Lawful(K) && DistinctKeys(K, s) && DistinctKeys(K, u)
    requires n < |s| && s[n].Live? && Partnered(K, s, n + 1, u) && |left| == |u|
    requires forall j :: 0 <= j < |u| ==> left[j] == u[j] || left[j].Empty?
    requires forall j :: 0 <= j < |u| && u[j].Live? ==> (left[j].Live? <==> Unclaimed(K, s, n, u, j))
    ensures |left'| == |u| && Total(left') == Total(left) - s[n].entry.count
    ensures forall j :: 0 <= j < |u| ==> left'[j] == u[j] || left'[j].Empty?
    ensures forall j :: 0 <= j < |u| && u[j].Live? ==> (left'[j].Live? <==> Unclaimed(K, s, n + 1, u, j))
  {
    var k := s[n].entry.key;
    var j :| Holds(K, u, k, j) && u[j].entry.count == s[n].entry.count;
    assert Unclaimed(K, s, n, u, j);
    TotalWithout(left, j);
    left' := left[j := Empty];
    forall p | 0 <= p < |u| && u[p].Live?
      ensures left'[p].Live? <==> Unclaimed(K, s, n + 1, u, p)
    {
      assert p != j ==> !K.eq(u[p].entry.key, u[j].entry.key);
      assert Unclaimed(K, s, n + 1, u, p) <==> Unclaimed(K, s, n, u, p) && !K.eq(u[p].entry.key, k);
    }
  }

  lemma UnclaimedIsAbsent(K: Keying, s: seq<Slot>, u: seq<Slot>, j: nat)
    requires Lawful(K) && j < |u| && u[j].Live?
    ensures Unclaimed(K, s, |s|, u, j) <==> !Has(K, s, u[j].entry.key)
  {
    var k := u[j].entry.key;
    if Has(K, s, k) {
      var i :| Holds(K, s, k, i);
      assert K.eq(k, s[i].entry.key);
    }
    if !Unclaimed(K, s, |s|, u, j) {
      var i :| 0 <= i < |s| && s[i].Live? && K.eq(k, s[i].entry.key);
      assert Holds(K, s, k, i);
    }
  }

  /** Every key of `u` is a key of `s`. */
  ghost predicate Covered(K: Keying, s: seq<Slot>, u: seq<Slot>) {
    forall j :: 0 <= j < |u| && u[j].Live? ==> Has(K, s, u[j].entry.key)
  }

  /** Equal totals make the one-sided match two-sided, and only then. */
  lemma PartnersCover(K: Keying, s: seq<Slot>, u: seq<Slot>)
    requires Lawful(K) && DistinctKeys(K, s) && DistinctKeys(K, u) && Positive(u)
    requires Partnered(K, s, |s|, u)
    ensures Total(s) == Total(u) <==> Covered(K, s, u)
  {
    hide Lawful, DistinctKeys, Partnered, Total, Unclaimed, Has;
    var left := CrossOut(K, s, |s|, u);
    assert s[..|s|] == s;
    NothingLive(left);
    forall j | 0 <= j < |u| && u[j].Live?
      ensures left[j].Live? <==> !Has(K, s, u[j].entry.key)
    {
      UnclaimedIsAbsent(K, s, u, j);
    }
    if !Covered(K, s, u) {
      var j :| 0 <= j < |u| && u[j].Live? && !Has(K, s, u[j].entry.key);
      assert left[j].Live?;
    }
  }

  /** Every live slot below `n` agrees with what `u` has for its key. */
  ghost predicate AgreesBelow(K: Keying, withValues: bool, valueEq: (Word, Word) -> bool,
                              s: seq<Slot>, n: nat, m: imap<Word, Entry>)
    requires n <= |s|
  {
    forall i :: 0 <= i < n && s[i].Live? ==>
      s[i].entry.key in m && Agrees(withValues, valueEq, s[i].entry, m[s[i].entry.key])
  }

  lemma AgreeingPartners(K: Keying, withValues: bool, valueEq: (Word, Word) -> bool, s: seq<Slot>, u: seq<Slot>)
    requires AgreesBelow(K, withValues, valueEq, s, |s|, Contents(K, u))
    ensures Partnered(K, s, |s|, u)
  {
    forall i | 0 <= i < |s| && s[i].Live?
      ensures exists j :: Holds(K, u, s[i].entry.key, j) && u[j].entry.count == s[i].entry.count
    {
      assert Has(K, u, s[i].entry.key) && EntryFor(K, u, s[i].entry.key).count == s[i].entry.count;
    }
  }

  /** The scan of one table together with the totals decides equality of the two. */
  lemma ScanDecides(K: Keying, withValues: bool, valueEq: (Word, Word) -> bool, s: seq<Slot>, u: seq<Slot>)
    requires Lawful(K) && DistinctKeys(K, s) && DistinctKeys(K, u) && Positive(u)
    ensures SameEntries(withValues, valueEq, Contents(K, s), Contents(K, u)) <==>
            Total(s) == Total(u) && AgreesBelow(K, withValues, valueEq, s, |s|, Contents(K, u))
  {
    hide Lawful, DistinctKeys, Partnered, Total, Positive, Contents, AgreesBelow, Covered, Agrees;
    if SameEntries(withValues, valueEq, Contents(K, s), Contents(K, u)) {
      SameAgrees(K, withValues, valueEq, s, u);
      AgreeingPartners(K, withValues, valueEq, s, u);
      PartnersCover(K, s, u);
    }
    if Total(s) == Total(u) && AgreesBelow(K, withValues, valueEq, s, |s|, Contents(K, u)) {
      AgreeingPartners(K, withValues, valueEq, s, u);
      PartnersCover(K, s, u);
      forall k ensures k in Contents(K, s) <==> k in Contents(K, u)
        ensures k in Contents(K, s) ==> Agrees(withValues, valueEq, Contents(K, s)[k], Contents(K, u)[k])
      {
        ScanOne(K, withValues, valueEq, s, u, k);
      }
    }
  }

  lemma SameAgrees(K: Keying, withValues: bool, valueEq: (Word, Word) -> bool, s: seq<Slot>, u: seq<Slot>)
    requires Lawful(K) && DistinctKeys(K, s) && DistinctKeys(K, u)
    requires SameEntries(withValues, valueEq, Contents(K, s), Contents(K, u))
    ensures AgreesBelow(K, withValues, valueEq, s, |s|, Contents(K, u)) && Covered(K, s, u)
  {
    hide Contents, Agrees, DistinctKeys;
    forall i | 0 <= i < |s| && s[i].Live?
      ensures s[i].entry.key in Contents(K, u)
      ensures Agrees(withValues, valueEq, s[i].entry, Contents(K, u)[s[i].entry.key])
    {
      ContentsAt(K, s, s[i].entry.key, i);
    }
    forall j | 0 <= j < |u| && u[j].Live? ensures Has(K, s, u[j].entry.key) {
      ContentsAt(K, u, u[j].entry.key, j);
      KeyHeld(K, s, u[j].entry.key);
    }
  }

  lemma KeyHeld(K: Keying, s: seq<Slot>, k: Word)
    requires k in Contents(K, s)
    ensures Has(K, s, k)
  {
  }

  lemma ScanOne(K: Keying, withValues: bool, valueEq: (Word, Word) -> bool, s: seq<Slot>, u: seq<Slot>, k: Word)
    requires Lawful(K) && DistinctKeys(K, s) && DistinctKeys(K, u)
    requires AgreesBelow(K, withValues, valueEq, s, |s|, Contents(K, u))
    requires Covered(K, s, u)
    ensures k in Contents(K, s) <==> k in Contents(K, u)
    ensures k in Contents(K, s) ==> Agrees(withValues, valueEq, Contents(K, s)[k], Contents(K, u)[k])
  {
    if k in Contents(K, s) {
      var i :| Holds(K, s, k, i);
      ContentsAt(K, s, k, i);
      SameKey(K, u, s[i].entry.key, k);
    }
    if k in Contents(K, u) {
      var j :| Holds(K, u, k, j);
      SameKey(K, s, u[j].entry.key, k);
      assert u[j].entry.key in Contents(K, s);
    }
  }

  /** Every entry of the first table agrees with the second. */
  ghost predicate Included(withValues: bool, valueEq: (Word, Word) -> bool, a: imap<Word, Entry>, b: imap<Word, Entry>) {
    forall k :: k in a ==> k in b && Agrees(withValues, valueEq, a[k], b[k])
  }

  /** The scan of the slots decides it. */
  lemma ScanIncludes(K: Keying, withValues: bool, valueEq: (Word, Word) -> bool, s: seq<Slot>, u: seq<Slot>)
    requires Lawful(K) && DistinctKeys(K, s) && DistinctKeys(K, u)
    ensures AgreesBelow(K, withValues, valueEq, s, |s|, Contents(K, u)) <==>
            Included(withValues, valueEq, Contents(K, s), Contents(K, u))
  {
    hide Contents, DistinctKeys, Agrees, Lawful;
    if AgreesBelow(K, withValues, valueEq, s, |s|, Contents(K, u)) {
      forall k | k in Contents(K, s)
        ensures k in Contents(K, u) && Agrees(withValues, valueEq, Contents(K, s)[k], Contents(K, u)[k])
      {
        KeyHeld(K, s, k);
        var i :| Holds(K, s, k, i);
        ContentsAt(K, s, k, i);
        SameKey(K, u, s[i].entry.key, k);
      }
    }
    if Included(withValues, valueEq, Contents(K, s), Contents(K, u)) {
      forall i | 0 <= i < |s| && s[i].Live?
        ensures s[i].entry.key in Contents(K, u)
        ensures Agrees(withValues, valueEq, s[i].entry, Contents(K, u)[s[i].entry.key])
      {
        OwnKey(K, s, i);
      }
    }
  }

  lemma OwnKey(K: Keying, s: seq<Slot>, i: nat)
    requires Lawful(K) && DistinctKeys(K, s) && i < |s| && s[i].Live?
    ensures s[i].entry.key in Contents(K, s) && Contents(K, s)[s[i].entry.key] == s[i].entry
  {
    ContentsAt(K, s, s[i].entry.key, i);
  }

  lemma AllCounted(m: Stores)
    requires Shaped(m)
    ensures Positive(Slots(m))
  {
  }

  // ---------- The comparison

  /** What the comparison finds: equal wrapped totals, and an inclusion unless they are zero. */
  ghost predicate FoundEqual(a: nat, b: nat, included: bool) {
    a % TWO64 == b % TWO64 && (a % TWO64 == 0 || included)
  }

  /** Totals that tell the tables apart, or that did not wrap to zero and are equal. */
  predicate TotalsSuffice(a: nat, b: nat) {
    a % TWO64 != b % TWO64 || (a == b && (a == 0 || a % TWO64 != 0))
  }

  /** Different totals that both wrap to zero. */
  predicate TotalsMislead(a: nat, b: nat) {
    a != b && a % TWO64 == 0 && b % TWO64 == 0
  }

  /**
    When the comparison of tables with totals `a` and `b` finds the truth: always when the
    totals suffice, never when they mislead. Equal totals that wrap to zero ask for an
    inclusion, and different ones that wrap to the same for none.
   */
  ghost predicate FoundRight(a: nat, b: nat, included: bool) {
    TotalsSuffice(a, b) || (!TotalsMislead(a, b) && (included <==> a == b))
  }

  lemma FoundDecides(K: Keying, withValues: bool, valueEq: (Word, Word) -> bool, s: seq<Slot>, u: seq<Slot>)
    requires Lawful(K) && DistinctKeys(K, s) && DistinctKeys(K, u) && Positive(s) && Positive(u)
    ensures
      var included := Included(withValues, valueEq, Contents(K, s), Contents(K, u));
      var same := SameEntries(withValues, valueEq, Contents(K, s), Contents(K, u));
      && (same <==> Total(s) == Total(u) && included)
      && (same ==> FoundEqual(Total(s), Total(u), included))
      && ((FoundEqual(Total(s), Total(u), included) <==> same) <==> FoundRight(Total(s), Total(u), included))
  {
    hide Contents, SameEntries, Total, Lawful, DistinctKeys, AgreesBelow, Positive, Included;
    ScanDecides(K, withValues, valueEq, s, u);
    ScanIncludes(K, withValues, valueEq, s, u);
    if Total(s) == 0 {
      NoneToScan(K, withValues, valueEq, s, u);
    }
  }

  /**
    `CFBasicHashesAreEqual`: tables that denote the same are always found equal. The totals
    are 64 bits wide, and the answer is right exactly when `FoundRight` says so, which the
    totals alone decide unless they wrap.
   */
  method AreEqual(t1: Table, t2: Table, valueEq: (Word, Word) -> bool) returns (equal: bool)
    requires t1.Valid() && t2.Valid() && t1.K == t2.K
    ensures
      var a, b := Total(t1.View()), Total(t2.View());
      var included := Included(t1.hasKeys, valueEq, t1.Denoted(), t2.Denoted());
      var same := SameEntries(t1.hasKeys, valueEq, t1.Denoted(), t2.Denoted());
      && (equal <==> FoundEqual(a, b, included))
      && (same ==> equal)
      && ((equal <==> same) <==> FoundRight(a, b, included))
      && (TotalsSuffice(a, b) ==> (equal <==> same))
      && (TotalsMislead(a, b) ==> equal && !same)
      && (a < TWO64 && b < TWO64 ==> (equal <==> same))
    ensures Total(t1.View()) < TWO64 && Total(t2.View()) < TWO64 ==>
      (equal <==>
        && (forall k :: k in t1.Denoted() <==> k in t2.Denoted())
        && (forall k :: k in t1.Denoted() ==> t1.Denoted()[k].count == t2.Denoted()[k].count)
        && (t1.hasKeys ==> forall k :: k in t1.Denoted() ==>
              t1.Denoted()[k].value == t2.Denoted()[k].value || valueEq(t1.Denoted()[k].value, t2.Denoted()[k].value)))
  {
    hide Table.Valid, Table.View, Contents, SameEntries, Total, Included;
    InUse(t1);
    InUse(t2);
    SameMeans(t1.hasKeys, valueEq, t1.Denoted(), t2.Denoted());
    Judged(t1, t2, valueEq);
    equal := FindEqual(t1, t2, valueEq);
  }

  /** What is found, against what the tables denote. */
  lemma Judged(t1: Table, t2: Table, valueEq: (Word, Word) -> bool)
    requires t1.Valid() && t2.Valid() && t1.K == t2.K
    ensures
      var a, b := Total(t1.View()), Total(t2.View());
      var included := Included(t1.hasKeys, valueEq, t1.Denoted(), t2.Denoted());
      var same := SameEntries(t1.hasKeys, valueEq, t1.Denoted(), t2.Denoted());
      && (same ==> FoundEqual(a, b, included))
      && ((FoundEqual(a, b, included) <==> same) <==> FoundRight(a, b, included))
  {
    hide Table.Balanced, Contents, SameEntries, LiveSet, TombSet, Total, Findable, Shaped, Slots, TableSize,
      TableCapacity, Lawful, DistinctKeys, Included, FoundEqual, FoundRight;
    InUse(t1);
    InUse(t2);
    AllCounted(t1.Now());
    AllCounted(t2.Now());
    FoundDecides(t1.K, t1.hasKeys, valueEq, t1.View(), t2.View());
  }

  /** The comparison itself: totals first, then the scan. */
  method FindEqual(t1: Table, t2: Table, valueEq: (Word, Word) -> bool) returns (equal: bool)
    requires t1.Valid() && t2.Valid() && t1.K == t2.K
    ensures equal <==> FoundEqual(Total(t1.View()), Total(t2.View()),
                                  Included(t1.hasKeys, valueEq, t1.Denoted(), t2.Denoted()))
  {
    hide Table.Balanced, Contents, LiveSet, TombSet, Total, Findable, Shaped, Slots, AgreesBelow, TableSize,
      TableCapacity, Lawful, DistinctKeys, Included;
    InUse(t1);
    InUse(t2);
    ScanIncludes(t1.K, t1.hasKeys, valueEq, t1.View(), t2.View());
    var cnt1 := GetCount(t1);
    var cnt2 := GetCount(t2);
    if cnt1 != cnt2 {
      return false;
    }
    if cnt1 == 0 {
      return true;
    }
    equal := ScanFirst(t1, t2, valueEq);
  }

  /** Denoting the same, spelled out. */
  lemma SameMeans(withValues: bool, valueEq: (Word, Word) -> bool, a: imap<Word, Entry>, b: imap<Word, Entry>)
    ensures SameEntries(withValues, valueEq, a, b) <==>
      && (forall k :: k in a <==> k in b)
      && (forall k :: k in a ==> a[k].count == b[k].count)
      && (withValues ==> forall k :: k in a ==> a[k].value == b[k].value || valueEq(a[k].value, b[k].value))
  {
  }

  // ---------- Two dictionaries that differ in a value, and a table found equal to an empty one

  /** Dictionaries 1: 10 and 1: 20 differ, whatever else is equal. */
  method ValuesTold(valueEq: (Word, Word) -> bool) returns (t1: Table, t2: Table, equal: bool)
    requires !valueEq(10, 20)
    ensures t1.Valid() && t2.Valid() && t1.Denoted().Keys == iset{1} && t2.Denoted().Keys == iset{1}
    ensures t1.Denoted()[1] == Entry(1, 10, 1) && t2.Denoted()[1] == Entry(1, 20, 1) && !equal
  {
    hide Table.Balanced, Contents, SameEntries, Total, Findable, DistinctKeys, Shaped, Slots, LiveSet, TombSet, TableSize,
      TableCapacity, Included, AddTo;
    t1 := OneEntry(10);
    t2 := OneEntry(20);
    SmallTotal(t1, 10);
    SmallTotal(t2, 20);
    equal := AreEqual(t1, t2, valueEq);
  }

  method OneEntry(v: Word) returns (t: Table)
    requires Legal(v)
    ensures t.Valid() && fresh(t) && t.K == PLAIN && t.hasKeys && t.Denoted().Keys == iset{1} && t.Denoted()[1] == Entry(1, v, 1)
  {
    hide Table.Balanced, Contents, Findable, DistinctKeys, Shaped, Slots, LiveSet, TombSet, TableSize, TableCapacity, AddTo;
    t := new Table(PLAIN, true, false, false, Owning(false, false));
    var added := t.Add(1, v);
    forall q ensures q in t.Denoted() <==> q == 1 {
      assert PLAIN.eq(1, q) <==> q == 1;
    }
  }

  lemma SmallTotal(t: Table, v: Word)
    requires t.Valid() && t.K == PLAIN && t.Denoted().Keys == iset{1} && t.Denoted()[1] == Entry(1, v, 1)
    ensures Total(t.View()) == 1
  {
    hide Table.Balanced, Total, Findable, Shaped, Slots, LiveSet, TombSet, TableSize, TableCapacity, Contents;
    var s := [Live(Entry(1, v, 1))];
    OneSlot(v);
    assert Contents(PLAIN, s) == t.Denoted();
    TableTotal(t, s);
  }

  lemma OneSlot(v: Word)
    ensures var s := [Live(Entry(1, v, 1))];
      && Total(s) == 1 && DistinctKeys(PLAIN, s)
      && Contents(PLAIN, s).Keys == iset{1} && Contents(PLAIN, s)[1] == Entry(1, v, 1)
  {
    var s := [Live(Entry(1, v, 1))];
    assert s[..0] == [];
    assert Holds(PLAIN, s, 1, 0);
    ContentsAt(PLAIN, s, 1, 0);
  }

  lemma PutAgain(K: Keying, m: imap<Word, Entry>, e: Entry, f: Entry)
    requires e.key == f.key
    ensures Put(K, Put(K, m, e), f) == Put(K, m, f)
  {
  }

  lemma PutHas(K: Keying, m: imap<Word, Entry>, e: Entry)
    requires Lawful(K)
    ensures e.key in Put(K, m, e) && Put(K, m, e)[e.key] == e
  {
  }

  /** Adds a new key `n` times. */
  method AddTimes(t: Table, k: Word, n: nat)
    requires t.Valid() && t.hasCounts && !t.hasKeys && Legal(k) && k !in t.Denoted() && t.TakesOne() && 0 < n <= LONG_MAX
    modifies t
    ensures t.Valid() && t.usedBuckets == old(t.usedBuckets) + 1
    ensures t.Denoted() == Put(t.K, old(t.Denoted()), Entry(k, k, n))
  {
    hide Table.Balanced, Contents, Put, Findable, DistinctKeys, Shaped, Slots, LiveSet, TombSet, TableSize, TableCapacity, Lawful;
    ghost var m := t.Denoted();
    var added := t.Add(k, k);
    var i := 1;
    while i < n
      invariant 1 <= i <= n && t.Valid() && t.usedBuckets == old(t.usedBuckets) + 1
      invariant t.Denoted() == Put(t.K, m, Entry(k, k, i))
    {
      PutHas(t.K, m, Entry(k, k, i));
      PutAgain(t.K, m, Entry(k, k, i), Entry(k, k, i + 1));
      var again := t.Add(k, k);
      i := i + 1;
    }
  }

  const PLAIN := Keying((w: Word) => w as nat, (a: Word, b: Word) => a == b)

  /** Three slots whose counts add up to 2^64. */
  ghost function ThreeCounts(): seq<Slot> {
    [Live(Entry(1, 1, LONG_MAX)), Live(Entry(2, 2, LONG_MAX)), Live(Entry(3, 3, 2))]
  }

  lemma ThreeCountsTotal()
    ensures Total(ThreeCounts()) == TWO64 && DistinctKeys(PLAIN, ThreeCounts())
  {
    hide Total;
    var a, b, c := Entry(1, 1, LONG_MAX), Entry(2, 2, LONG_MAX), Entry(3, 3, 2);
    NoTotal();
    TotalMore([], a);
    TotalMore([Live(a)], b);
    TotalMore([Live(a), Live(b)], c);
    assert [] + [Live(a)] == [Live(a)] && [Live(a)] + [Live(b)] == [Live(a), Live(b)];
    assert [Live(a), Live(b)] + [Live(c)] == ThreeCounts();
  }

  lemma TotalMore(s: seq<Slot>, e: Entry)
    ensures Total(s + [Live(e)]) == Total(s) + e.count
  {
    assert (s + [Live(e)])[..|s|] == s;
  }

  lemma ThreeCountsDenote()
    ensures Contents(PLAIN, ThreeCounts()) ==
            Put(PLAIN, Put(PLAIN, Put(PLAIN, imap[], Entry(1, 1, LONG_MAX)), Entry(2, 2, LONG_MAX)), Entry(3, 3, 2))
  {
    hide Contents, Put;
    var s0: seq<Slot> := [Empty, Empty, Empty];
    var s1 := s0[0 := Live(Entry(1, 1, LONG_MAX))];
    var s2 := s1[1 := Live(Entry(2, 2, LONG_MAX))];
    NoSlots(PLAIN, s0);
    StoreContents(PLAIN, s0, 0, Entry(1, 1, LONG_MAX));
    StoreContents(PLAIN, s1, 1, Entry(2, 2, LONG_MAX));
    StoreContents(PLAIN, s2, 2, Entry(3, 3, 2));
    assert s2[2 := Live(Entry(3, 3, 2))] == ThreeCounts();
  }

  lemma NoSlots(K: Keying, s: seq<Slot>)
    requires forall i :: 0 <= i < |s| ==> !s[i].Live?
    ensures Contents(K, s) == imap[] && DistinctKeys(K, s)
  {
  }

  /** The total belongs to what is denoted, however it is laid out. */
  lemma TotalDenoted(K: Keying, s: seq<Slot>, u: seq<Slot>)
    requires Lawful(K) && DistinctKeys(K, s) && DistinctKeys(K, u) && Positive(u) && Contents(K, s) == Contents(K, u)
    ensures Total(s) == Total(u)
  {
    hide Contents, Lawful, DistinctKeys, Positive, Total;
    ScanDecides(K, false, (a, b) => true, s, u);
  }

  lemma TableTotal(t: Table, s: seq<Slot>)
    requires t.Valid() && DistinctKeys(t.K, s) && Contents(t.K, s) == t.Denoted()
    ensures Total(t.View()) == Total(s)
  {
    hide Contents, Total;
    AllCounted(t.Now());
    TotalDenoted(t.K, s, t.View());
  }

  /** A bag of three keys counted 2^63 - 1, 2^63 - 1 and 2 times is found equal to an empty one. */
  method WrappedTotals(valueEq: (Word, Word) -> bool) returns (t1: Table, t2: Table, equal: bool)
    ensures t1.Valid() && t2.Valid() && t1.K == t2.K && t1.usedBuckets == 3 && t2.usedBuckets == 0
    ensures equal && !SameEntries(t1.hasKeys, valueEq, t1.Denoted(), t2.Denoted())
  {
    hide Table.Balanced, Contents, SameEntries, Total, Findable, DistinctKeys, Shaped, Slots, LiveSet, TombSet, TableSize,
      TableCapacity, Included, Put;
    t1 := ThreeCounted();
    t2 := new Table(PLAIN, false, true, false, Owning(false, false));
    ThreeCountsTotal();
    ThreeCountsDenote();
    TableTotal(t1, ThreeCounts());
    NoSlots(PLAIN, []);
    TableTotal(t2, []);
    NoTotal();
    equal := AreEqual(t1, t2, valueEq);
  }

  lemma NoTotal()
    ensures Total([]) == 0
  {
  }

  method ThreeCounted() returns (t: Table)
    ensures t.Valid() && t.K == PLAIN && !t.hasKeys && t.usedBuckets == 3 && fresh(t)
    ensures t.Denoted() ==
            Put(PLAIN, Put(PLAIN, Put(PLAIN, imap[], Entry(1, 1, LONG_MAX)), Entry(2, 2, LONG_MAX)), Entry(3, 3, 2))
  {
    hide Table.Balanced, Contents, Findable, DistinctKeys, Shaped, Slots, LiveSet, TombSet, TableSize, TableCapacity;
    t := new Table(PLAIN, false, true, false, Owning(false, false));
    AddTimes(t, 1, LONG_MAX);
    AddTimes(t, 2, LONG_MAX);
    AddTimes(t, 3, 2);
  }

  lemma NoneToScan(K: Keying, withValues: bool, valueEq: (Word, Word) -> bool, s: seq<Slot>, u: seq<Slot>)
    requires Positive(s) && Total(s) == 0
    ensures AgreesBelow(K, withValues, valueEq, s, |s|, Contents(K, u))
  {
    NothingLive(s);
  }

  /** Nothing live is left from the bucket where the loop stopped. */
  lemma RestAgrees(K: Keying, withValues: bool, valueEq: (Word, Word) -> bool,
                   s: seq<Slot>, n: nat, m: imap<Word, Entry>)
    requires n <= |s| && AgreesBelow(K, withValues, valueEq, s, n, m)
    requires n == |s| || |LiveBelow(s, n)| == |LiveSet(s)|
    ensures AgreesBelow(K, withValues, valueEq, s, |s|, m)
  {
    if n < |s| {
      NoneLeft(s, n);
    }
    LiveBelowExact(s, n);
    LiveBelowExact(s, |s|);
  }

  /** One round of the comparison: the live bucket of the first table against the second. */
  method SameBucket(t1: Table, t2: Table, valueEq: (Word, Word) -> bool, idx: nat) returns (agrees: bool)
    requires t1.Valid() && t2.Valid() && t1.K == t2.K && Shaped(t1.Now()) && Shaped(t2.Now())
    requires idx < |t1.values| && !IsMark(t1.values[idx])
    ensures t1.View()[idx].Live?
    ensures var e, m := t1.View()[idx].entry, t2.Denoted();
      && (agrees <==> e.key in m && Agrees(t1.hasKeys, valueEq, e, m[e.key]))
      && (agrees <==> e.key in m && e.count == m[e.key].count
                      && (t1.hasKeys ==> e.value == m[e.key].value || valueEq(e.value, m[e.key].value)))
  {
    hide Table.Valid, Contents, LiveSet;
    var bkt1 := SlotAt(t1.Now(), idx).entry;
    var j, count := t2.Find(bkt1.key);
    if bkt1.count != count {
      return false;
    }
    var bkt2 := SlotAt(t2.Now(), j).entry;
    agrees := !t1.hasKeys || bkt1.value == bkt2.value || valueEq(bkt1.value, bkt2.value);
  }

  method ScanFirst(t1: Table, t2: Table, valueEq: (Word, Word) -> bool) returns (equal: bool)
    requires t1.Valid() && t2.Valid() && t1.K == t2.K && Shaped(t1.Now()) && Shaped(t2.Now())
    requires t1.usedBuckets == |LiveSet(t1.View())|
    ensures equal <==> AgreesBelow(t1.K, t1.hasKeys, valueEq, t1.View(), |t1.View()|, t2.Denoted())
  {
    hide Table.Valid, Contents, LiveSet, Agrees;
    var used, cnt := t1.usedBuckets, |t1.values|;
    var idx := 0;
    while 0 < used && idx < cnt
      invariant 0 <= idx <= cnt && used >= 0 && |LiveBelow(t1.View(), idx)| + used == t1.usedBuckets
      invariant AgreesBelow(t1.K, t1.hasKeys, valueEq, t1.View(), idx, t2.Denoted())
      decreases cnt - idx
    {
      if !IsMark(t1.values[idx]) {
        var agrees := SameBucket(t1, t2, valueEq, idx);
        if !agrees {
          return false;
        }
        used := used - 1;
      }
      idx := idx + 1;
    }
    RestAgrees(t1.K, t1.hasKeys, valueEq, t1.View(), idx, t2.Denoted());
    return true;
  }
}
