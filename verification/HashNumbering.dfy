/** Tables whose values number their keys: inserting and removing a number renumbers the rest. */
module HashNumbering {
  import opened HashSlots
  import opened HashTables
  import opened HashStores
  import opened BasicHash
  import opened HashRuns

  function MovedUp(p: Word, v: Word): Word {
    if p <= v < WORD_MAX then v + 1 else v
  }

  /** What inserting number `p` does to the numbers in use. */
  function Up(p: Word): Word -> Word {
    (v: Word) => MovedUp(p, v)
  }

  /** The same as it is read back: the word that stands for another comes back as that one. */
  function UpRead(p: Word): Word -> Word {
    (v: Word) => Load(Store(MovedUp(p, v)))
  }

  /** What removing number `p` does to the other numbers. */
  function Down(p: Word): Word -> Word {
    (v: Word) => if p < v then v - 1 else v
  }

  /** The table with every value renumbered. */
  ghost function MapValues(m: imap<Word, Entry>, f: Word -> Word): imap<Word, Entry> {
    imap k: Word | k in m :: m[k].(value := f(m[k].value))
  }

  /** Values are below `n`, and only equal keys share one. */
  ghost predicate Numbered(K: Keying, m: imap<Word, Entry>, n: nat) {
    && (forall k :: k in m ==> m[k].value < n)
    && forall k, q :: k in m && q in m && m[k].value == m[q].value ==> K.eq(k, q)
  }

  /** The table does not tell equal keys apart. */
  ghost predicate Respects(K: Keying, m: imap<Word, Entry>) {
    forall k, q :: k in m && K.eq(k, q) ==> q in m && m[q] == m[k]
  }

  ghost function Inserted(K: Keying, m: imap<Word, Entry>, k: Word, p: Word): imap<Word, Entry> {
    Put(K, MapValues(m, Up(p)), Entry(k, p, 1))
  }

  ghost function InsertedRead(K: Keying, m: imap<Word, Entry>, k: Word, p: Word): imap<Word, Entry> {
    Put(K, MapValues(m, UpRead(p)), Entry(k, p, 1))
  }

  ghost function Taken(K: Keying, m: imap<Word, Entry>, k: Word, p: Word): imap<Word, Entry> {
    Drop(K, MapValues(m, Down(p)), k)
  }

  // ---------- Laws of renumbering

  lemma InsertKeepsNumbers(K: Keying, m: imap<Word, Entry>, n: nat, k: Word, p: Word)
    requires Lawful(K) && Respects(K, m) && Numbered(K, m, n) && n < WORD_MAX
    requires k !in m && p <= n
    ensures Numbered(K, Inserted(K, m, k, p), n + 1)
  {
  }

  /** With fewer numbers than the first substitute word, every one is read back as it was stored. */
  lemma ReadsBack(K: Keying, m: imap<Word, Entry>, n: nat, k: Word, p: Word)
    requires Numbered(K, m, n) && n < SUB_ONE
    ensures InsertedRead(K, m, k, p) == Inserted(K, m, k, p)
  {
    forall q | q in m ensures UpRead(p)(m[q].value) == Up(p)(m[q].value) {
    }
    assert MapValues(m, UpRead(p)) == MapValues(m, Up(p));
  }

  /** With one more, the highest number becomes the substitute word and is read back as another. */
  lemma NumberLost(K: Keying, m: imap<Word, Entry>, k: Word, p: Word, q: Word)
    requires Lawful(K) && Respects(K, m) && k !in m && q in m && m[q].value == SUB_ONE - 1 && p < SUB_ONE
    ensures q in InsertedRead(K, m, k, p) && InsertedRead(K, m, k, p)[q].value == WORD_MAX
    ensures !Numbered(K, InsertedRead(K, m, k, p), SUB_ONE + 1)
  {
    assert !K.eq(k, q) by {
      assert K.eq(k, q) ==> K.eq(q, k);
    }
    UpReads(p, SUB_ONE - 1);
  }

  /** A number that moves is stored one higher; one that stays is legal as it is. */
  lemma UpReads(p: Word, v: Word)
    requires v < SUB_ONE
    ensures UpRead(p)(v) == Load(Store(if p <= v then v + 1 else v))
    ensures p > v ==> UpRead(p)(v) == v
    ensures p <= v == SUB_ONE - 1 ==> UpRead(p)(v) == WORD_MAX
  {
  }

  lemma RemoveKeepsNumbers(K: Keying, m: imap<Word, Entry>, n: nat, k: Word, p: Word)
    requires Lawful(K) && Respects(K, m) && Numbered(K, m, n)
    requires k in m && m[k].value == p
    ensures Numbered(K, Taken(K, m, k, p), n - 1)
  {
    var m' := Taken(K, m, k, p);
    forall q | q in m'
      ensures m'[q].value < n - 1 && m[q].value != p
    {
      assert q in m && !K.eq(k, q);
    }
  }

  /** Removing the number just inserted restores the table. */
  lemma InsertThenRemove(K: Keying, m: imap<Word, Entry>, n: nat, k: Word, p: Word)
    requires Lawful(K) && Respects(K, m) && Numbered(K, m, n) && n < WORD_MAX
    requires k !in m && p <= n
    ensures Taken(K, Inserted(K, m, k, p), k, p) == m
  {
    var m' := Taken(K, Inserted(K, m, k, p), k, p);
    forall q ensures q in m' <==> q in m
      ensures q in m ==> m'[q] == m[q]
    {
      assert q in m && K.eq(k, q) ==> K.eq(q, k) && k in m;
    }
  }

  /** Neither operation reorders the keys that stay. */
  lemma OrderKept(K: Keying, m: imap<Word, Entry>, n: nat, p: Word, a: Word, b: Word)
    requires Numbered(K, m, n) && n < WORD_MAX && a in m && b in m && m[a].value < m[b].value
    ensures MapValues(m, Up(p))[a].value < MapValues(m, Up(p))[b].value
    ensures m[a].value != p && m[b].value != p ==>
              MapValues(m, Down(p))[a].value < MapValues(m, Down(p))[b].value
  {
  }

  // ---------- Every number is in use

  ghost function ValuesIn(s: seq<Slot>): set<Word> {
    if s == [] then {}
    else ValuesIn(s[..|s| - 1]) + if s[|s| - 1].Live? then {s[|s| - 1].entry.value} else {}
  }

  lemma {:induction false} ValueFrom(s: seq<Slot>, v: Word) returns (i: nat)
    requires v in ValuesIn(s)
    ensures i < |s| && s[i].Live? && s[i].entry.value == v
  {
    var n := |s| - 1;
    if s[n].Live? && s[n].entry.value == v {
      i := n;
    } else {
      i := ValueFrom(s[..n], v);
    }
  }

  ghost predicate DistinctValues(s: seq<Slot>) {
    forall i, j :: 0 <= i < j < |s| && s[i].Live? && s[j].Live? ==> s[i].entry.value != s[j].entry.value
  }

  /** A further live slot has a value of its own. */
  lemma NewValue(s: seq<Slot>, n: nat)
    requires n < |s| && s[n].Live? && DistinctValues(s)
    ensures s[n].entry.value !in ValuesIn(s[..n])
  {
    hide ValuesIn;
    if s[n].entry.value in ValuesIn(s[..n]) {
      var i := ValueFrom(s[..n], s[n].entry.value);
      assert false;
    }
  }

  lemma LiveSetLast(s: seq<Slot>, n: nat)
    requires |s| == n + 1
    ensures n !in LiveSet(s[..n]) && LiveSet(s) == LiveSet(s[..n]) + if s[n].Live? then {n} else {}
  {
  }

  lemma {:induction false} AsManyValues(s: seq<Slot>)
    requires DistinctValues(s)
    ensures |ValuesIn(s)| == |LiveSet(s)|
  {
    if s != [] {
      hide LiveSet, DistinctValues;
      var n := |s| - 1;
      FewerDistinct(s, n);
      AsManyValues(s[..n]);
      LiveSetLast(s, n);
      if s[n].Live? {
        NewValue(s, n);
      }
    }
  }

  lemma FewerDistinct(s: seq<Slot>, n: nat)
    requires n <= |s| && DistinctValues(s)
    ensures DistinctValues(s[..n])
  {
  }

  lemma NumberedSlots(K: Keying, s: seq<Slot>, n: nat)
    requires Lawful(K) && DistinctKeys(K, s) && Numbered(K, Contents(K, s), n)
    ensures DistinctValues(s)
    ensures forall i :: 0 <= i < |s| && s[i].Live? ==> s[i].entry.value < n
  {
    forall i | 0 <= i < |s| && s[i].Live?
      ensures s[i].entry.key in Contents(K, s) && Contents(K, s)[s[i].entry.key] == s[i].entry
    {
      ContentsAt(K, s, s[i].entry.key, i);
    }
  }

  /** The numbering is onto: every number below the count is some key's. */
  lemma EveryNumberUsed(K: Keying, s: seq<Slot>, p: Word) returns (b: nat)
    requires Lawful(K) && DistinctKeys(K, s) && Numbered(K, Contents(K, s), |LiveSet(s)|)
    requires p < |LiveSet(s)|
    ensures b < |s| && s[b].Live? && s[b].entry.value == p
  {
    hide Contents, DistinctKeys, Lawful, Numbered, LiveSet, ValuesIn;
    var n := |LiveSet(s)|;
    NumberedSlots(K, s, n);
    AsManyValues(s);
    forall v | v in ValuesIn(s) ensures v in Below(n) {
      var i := ValueFrom(s, v);
    }
    SubsetSize(ValuesIn(s), Below(n));
    assert p in Below(n);
    b := ValueFrom(s, p);
  }

  lemma ContentsRespect(K: Keying, s: seq<Slot>)
    requires Lawful(K) && DistinctKeys(K, s)
    ensures Respects(K, Contents(K, s))
  {
    hide Contents, DistinctKeys, Lawful;
    forall k, q | k in Contents(K, s) && K.eq(k, q)
      ensures q in Contents(K, s) && Contents(K, s)[q] == Contents(K, s)[k]
    {
      SameKey(K, s, k, q);
    }
  }

  // ---------- Renumbering the slots

  function Renumber(x: Slot, f: Word -> Word): Slot {
    if x.Live? then Live(x.entry.(value := f(x.entry.value))) else x
  }

  ghost predicate RenumberedTo(s: seq<Slot>, f: Word -> Word, u: seq<Slot>) {
    |u| == |s| && forall i :: 0 <= i < |s| ==> u[i] == Renumber(s[i], f)
  }

  lemma RenumberKeeps(K: Keying, s: seq<Slot>, f: Word -> Word, u: seq<Slot>)
    requires Lawful(K) && DistinctKeys(K, s) && Findable(K, s) && RenumberedTo(s, f, u)
    ensures DistinctKeys(K, u) && Findable(K, u) && LiveSet(u) == LiveSet(s) && TombSet(u) == TombSet(s)
    ensures Contents(K, u) == MapValues(Contents(K, s), f)
  {
    hide Contents, Findable, Lawful;
    assert LiveSet(u) == LiveSet(s) && TombSet(u) == TombSet(s);
    RenumberFindable(K, s, f, u);
    assert DistinctKeys(K, u);
    forall k ensures k in Contents(K, u) <==> k in MapValues(Contents(K, s), f)
      ensures k in Contents(K, u) ==> Contents(K, u)[k] == MapValues(Contents(K, s), f)[k]
    {
      RenumberAt(K, s, f, u, k);
    }
  }

  /** The keys held are the same. */
  lemma {:induction false} RenumberBag(s: seq<Slot>, f: Word -> Word, u: seq<Slot>)
    requires RenumberedTo(s, f, u)
    ensures Bag(u, KeyOf) == Bag(s, KeyOf)
  {
    if s != [] {
      var n := |s| - 1;
      RenumberBag(s[..n], f, u[..n]);
    }
  }

  lemma RenumberFindable(K: Keying, s: seq<Slot>, f: Word -> Word, u: seq<Slot>)
    requires Findable(K, s) && RenumberedTo(s, f, u)
    ensures Findable(K, u)
  {
    forall i | 0 <= i < |u| && u[i].Live?
      ensures PathOpen(u, Start(K, u[i].entry.key, |u|), i)
    {
      assert PathOpen(s, Start(K, s[i].entry.key, |s|), i);
    }
  }

  lemma RenumberAt(K: Keying, s: seq<Slot>, f: Word -> Word, u: seq<Slot>, k: Word)
    requires Lawful(K) && DistinctKeys(K, s) && DistinctKeys(K, u) && RenumberedTo(s, f, u)
    ensures k in Contents(K, u) <==> k in Contents(K, s)
    ensures k in Contents(K, s) ==> Contents(K, u)[k] == MapValues(Contents(K, s), f)[k]
  {
    hide Contents, DistinctKeys, Lawful;
    if i :| Holds(K, s, k, i) {
      assert Holds(K, u, k, i);
      ContentsAt(K, s, k, i);
      ContentsAt(K, u, k, i);
    } else {
      assert forall i :: Holds(K, u, k, i) ==> Holds(K, s, k, i);
      NotHeld(K, s, k);
      NotHeld(K, u, k);
    }
  }

  lemma RenumberSearch(K: Keying, s: seq<Slot>, f: Word -> Word, u: seq<Slot>, k: Word, b: int)
    requires Search(K, s, k, b, false) && RenumberedTo(s, f, u)
    ensures Search(K, u, k, b, false)
  {
    assert forall i :: Holds(K, u, k, i) ==> Holds(K, s, k, i);
  }

  // ---------- The operations

  /** The stores with the slots below `n` renumbered and the others untouched. */
  ghost predicate Partly(was: Stores, now: Stores, n: nat, f: Word -> Word)
    requires Shaped(was)
  {
    && |now.values| == |was.values| && now == was.(values := now.values)
    && (forall i :: 0 <= i < |was.values| ==> (now.values[i] == EMPTY <==> was.values[i] == EMPTY))
    && (forall i :: 0 <= i < |was.values| ==> (now.values[i] == DELETED <==> was.values[i] == DELETED))
    && (forall i :: n <= i < |was.values| ==> now.values[i] == was.values[i])
    && (forall i :: 0 <= i < n && i < |was.values| ==> SlotAt(now, i) == Renumber(SlotAt(was, i), f))
  }

  lemma PartlyAll(was: Stores, now: Stores, f: Word -> Word)
    requires Shaped(was) && Partly(was, now, |was.values|, f)
    ensures Shaped(now) && RenumberedTo(Slots(was), f, Slots(now))
  {
  }

  lemma PartlyNone(was: Stores, f: Word -> Word)
    requires Shaped(was)
    ensures Partly(was, was, 0, f)
  {
  }

  lemma PartlyHere(was: Stores, now: Stores, n: nat, f: Word -> Word)
    requires Shaped(was) && n < |was.values| && Partly(was, now, n, f)
    ensures now.values[n] == was.values[n]
    ensures !IsMark(was.values[n]) <==> Slots(was)[n].Live?
    ensures Slots(was)[n].Live? ==> Slots(was)[n].entry.value == Load(was.values[n])
  {
  }

  lemma PartlyStep(was: Stores, now: Stores, n: nat, f: Word -> Word, raw: Word)
    requires Shaped(was) && n < |was.values| && Partly(was, now, n, f) && |now.values| == |was.values| && was.hasKeys
    requires IsMark(was.values[n]) ==> raw == was.values[n]
    requires !IsMark(was.values[n]) ==> !IsMark(raw) && Load(raw) == f(Load(was.values[n]))
    ensures Partly(was, now.(values := now.values[n := raw]), n + 1, f)
  {
  }

  /** The loop of `CFBasicHashAddIntValueAndInc`. */
  method IncFrom(t: Table, p: Word)
    requires Shaped(t.Now()) && t.hasKeys
    requires forall i :: 0 <= i < |t.values| && t.View()[i].Live? ==> t.View()[i].entry.value < SUB_ONE
    modifies t`values, t`valueRefs
    ensures Shaped(t.Now()) && |t.values| == old(|t.values|) && t.valueRefs == old(t.valueRefs)
    ensures RenumberedTo(old(t.View()), UpRead(p), t.View())
  {
    hide Slots, Load, Store, Partly, Shaped, RenumberedTo, UpRead;
    ghost var was := t.Now();
    ghost var s := t.View();
    PartlyNone(was, UpRead(p));
    var idx := 0;
    while idx < |t.values|
      invariant 0 <= idx <= |t.values| == |was.values| && t.valueRefs == old(t.valueRefs)
      invariant Partly(was, t.Now(), idx, UpRead(p))
    {
      ghost var now := t.Now();
      PartlyHere(was, now, idx, UpRead(p));
      if !IsMark(t.values[idx]) {
        var value := Load(t.values[idx]);
        assert value == s[idx].entry.value;
        UpReads(p, value);
        if p <= value {
          t.SetValue(idx, value + 1, true, false);
        }
      }
      assert t.values == now.values[idx := t.values[idx]];
      PartlyStep(was, now, idx, UpRead(p), t.values[idx]);
      idx := idx + 1;
    }
    PartlyAll(was, t.Now(), UpRead(p));
  }

  /** The loop of `CFBasicHashRemoveIntValueAndDec`. */
  method DecAbove(t: Table, p: Word) returns (b: int)
    requires Shaped(t.Now()) && t.hasKeys
    requires forall i :: 0 <= i < |t.values| && t.View()[i].Live? ==> t.View()[i].entry.value < SUB_ONE
    modifies t`values, t`valueRefs
    ensures Shaped(t.Now()) && |t.values| == old(|t.values|) && t.valueRefs == old(t.valueRefs)
    ensures RenumberedTo(old(t.View()), Down(p), t.View())
    ensures b == -1 ==> forall i :: 0 <= i < |t.values| && old(t.View())[i].Live? ==> old(t.View())[i].entry.value != p
    ensures b != -1 ==> 0 <= b < |t.values| && old(t.View())[b].Live? && old(t.View())[b].entry.value == p
  {
    hide Slots, Load, Store, Partly, Shaped, RenumberedTo;
    ghost var was := t.Now();
    ghost var s := t.View();
    PartlyNone(was, Down(p));
    b := -1;
    var idx := 0;
    while idx < |t.values|
      invariant 0 <= idx <= |t.values| == |was.values| && t.valueRefs == old(t.valueRefs)
      invariant Partly(was, t.Now(), idx, Down(p))
      invariant b == -1 ==> forall i :: 0 <= i < idx && s[i].Live? ==> s[i].entry.value != p
      invariant b != -1 ==> 0 <= b < idx && s[b].Live? && s[b].entry.value == p
    {
      ghost var now := t.Now();
      PartlyHere(was, now, idx, Down(p));
      if !IsMark(t.values[idx]) {
        var value := Load(t.values[idx]);
        if p == value {
          b := idx;
        }
        if p < value {
          LoadStore(value - 1);
          t.SetValue(idx, value - 1, true, false);
        }
      }
      assert t.values == now.values[idx := t.values[idx]];
      PartlyStep(was, now, idx, Down(p), t.values[idx]);
      idx := idx + 1;
    }
    PartlyAll(was, t.Now(), Down(p));
  }

  /** Everything the operations need to know of a table of numbers. */
  lemma NumberTable(t: Table)
    requires t.Valid() && Numbered(t.K, t.Denoted(), t.usedBuckets)
    ensures Shaped(t.Now()) && t.usedBuckets == |LiveSet(t.View())|
    ensures Lawful(t.K) && DistinctKeys(t.K, t.View()) && Findable(t.K, t.View()) && Respects(t.K, t.Denoted())
    ensures forall i :: 0 <= i < |t.values| && t.View()[i].Live? ==> t.View()[i].entry.value < t.usedBuckets
  {
    ContentsRespect(t.K, t.View());
    NumberedSlots(t.K, t.View(), t.usedBuckets);
  }

  /** A table of numbers has no more of them than the first substitute word, which none can be. */
  lemma NumbersEnd(t: Table)
    requires t.Valid() && Numbered(t.K, t.Denoted(), t.usedBuckets)
    ensures t.usedBuckets <= SUB_ONE
  {
    hide Contents, Findable, DistinctKeys, Lawful, Numbered, LiveSet, TombSet, TableSize, TableCapacity, Bag;
    if t.usedBuckets > SUB_ONE {
      var b := EveryNumberUsed(t.K, t.View(), SUB_ONE);
      assert false;
    }
  }

  /** The key with the highest number. */
  lemma HighestKey(t: Table) returns (q: Word)
    requires t.Valid() && Numbered(t.K, t.Denoted(), t.usedBuckets) && t.usedBuckets == SUB_ONE
    ensures q in t.Denoted() && t.Denoted()[q].value == SUB_ONE - 1
  {
    hide Contents, Findable, DistinctKeys, Lawful, Numbered, LiveSet, TombSet, TableSize, TableCapacity, Bag, Slots;
    var b := EveryNumberUsed(t.K, t.View(), SUB_ONE - 1);
    q := t.View()[b].entry.key;
    SelfHeld(t.K, t.View(), b);
  }

  /**
    `CFBasicHashAddIntValueAndInc`: a new key takes number `p` and the numbers from `p` on move
    up. The numbers in use stay `0` to the count exactly when they stay below the first
    substitute word: the highest would otherwise be stored as that word and read back as another.
   */
  method AddIntValueAndInc(t: Table, k: Word, p: Word) returns (added: bool)
    requires t.Valid() && t.hasKeys && !t.own.values && (k !in t.Denoted() ==> t.TakesOne())
    requires Legal(k) && Legal(p) && p <= t.usedBuckets && Numbered(t.K, t.Denoted(), t.usedBuckets)
    modifies t
    ensures t.Valid()
    ensures added <==> k !in old(t.Denoted())
    ensures !added ==> t.Denoted() == old(t.Denoted())
    ensures added ==> t.Denoted() == InsertedRead(t.K, old(t.Denoted()), k, p)
    ensures added && old(t.usedBuckets) < SUB_ONE ==> t.Denoted() == Inserted(t.K, old(t.Denoted()), k, p)
    ensures Numbered(t.K, t.Denoted(), t.usedBuckets) <==> !added || old(t.usedBuckets) < SUB_ONE
    ensures added ==> k in t.Denoted() && t.Denoted()[k] == Entry(k, p, 1)
    ensures added && old(t.usedBuckets) < SUB_ONE ==> forall q :: q in old(t.Denoted()) ==>
              && q in t.Denoted() && t.Denoted()[q].key == old(t.Denoted())[q].key
              && t.Denoted()[q].count == old(t.Denoted())[q].count
              && t.Denoted()[q].value == old(t.Denoted())[q].value + if p <= old(t.Denoted())[q].value then 1 else 0
    ensures t.usedBuckets == old(t.usedBuckets) + if added then 1 else 0
  {
    hide Table.Sound, Table.Balanced, Contents, Put, Search, Shaped, Slots, TableSize, TableCapacity, LiveSet, TombSet,
      Numbered, Respects, MapValues, RenumberedTo, Lawful, DistinctKeys, Findable, Up, UpRead, InsertedRead, Inserted;
    NumberTable(t);
    NumbersEnd(t);
    var idx, count := t.Find(k);
    if 0 < count {
      return false;
    }
    NewNumber(t, k, p);
    var b := RehashFirst(t, idx, k);
    ShiftUp(t, p, b, k);
    b := t.MakeRoom(b, k);
    t.StoreAt(b, k, p);
    InsertedIs(t.K, old(t.Denoted()), k, p);
    InsertedAt(t.K, old(t.Denoted()), old(t.usedBuckets), k, p);
    return true;
  }

  /** Inserting, key by key. */
  lemma InsertedAt(K: Keying, m: imap<Word, Entry>, n: nat, k: Word, p: Word)
    requires Lawful(K) && Respects(K, m) && Numbered(K, m, n) && k !in m
    ensures k in InsertedRead(K, m, k, p) && InsertedRead(K, m, k, p)[k] == Entry(k, p, 1)
    ensures n < SUB_ONE ==> forall q :: q in m ==>
              && q in Inserted(K, m, k, p)
              && Inserted(K, m, k, p)[q] == m[q].(value := m[q].value + if p <= m[q].value then 1 else 0)
  {
    forall q | q in m ensures !K.eq(k, q) {
      assert K.eq(k, q) ==> K.eq(q, k);
    }
  }

  /** Removing, key by key. */
  lemma TakenAt(K: Keying, m: imap<Word, Entry>, n: nat, k: Word, p: Word)
    requires Lawful(K) && Respects(K, m) && Numbered(K, m, n) && k in m && m[k].value == p
    ensures forall q :: q in m && m[q].value == p ==> q !in Taken(K, m, k, p)
    ensures forall q :: q in m && m[q].value != p ==>
              && q in Taken(K, m, k, p)
              && Taken(K, m, k, p)[q] == m[q].(value := m[q].value - if p < m[q].value then 1 else 0)
  {
    forall q | q in m ensures K.eq(k, q) <==> m[q].value == p {
    }
  }

  lemma InsertedIs(K: Keying, m: imap<Word, Entry>, k: Word, p: Word)
    ensures InsertedRead(K, m, k, p) == Put(K, MapValues(m, UpRead(p)), Entry(k, p, 1))
  {
  }

  /** What a new number does to a table of numbers. */
  lemma NewNumber(t: Table, k: Word, p: Word)
    requires t.Valid() && Numbered(t.K, t.Denoted(), t.usedBuckets) && t.usedBuckets <= SUB_ONE
    requires k !in t.Denoted() && Legal(p) && p <= t.usedBuckets
    ensures t.usedBuckets < SUB_ONE ==> InsertedRead(t.K, t.Denoted(), k, p) == Inserted(t.K, t.Denoted(), k, p)
    ensures Numbered(t.K, InsertedRead(t.K, t.Denoted(), k, p), t.usedBuckets + 1) <==> t.usedBuckets < SUB_ONE
  {
    hide Table.Balanced, Contents, Shaped, Slots, TableSize, TableCapacity, LiveSet, TombSet, Numbered, Respects, Lawful,
      DistinctKeys, Findable, InsertedRead, Inserted;
    NumberTable(t);
    if t.usedBuckets < SUB_ONE {
      ReadsBack(t.K, t.Denoted(), t.usedBuckets, k, p);
      InsertKeepsNumbers(t.K, t.Denoted(), t.usedBuckets, k, p);
    } else {
      var q := HighestKey(t);
      NumberLost(t.K, t.Denoted(), k, p, q);
    }
  }

  method RehashFirst(t: Table, idx: int, k: Word) returns (b: int)
    requires t.Valid() && t.TakesOne() && Search(t.K, t.View(), k, idx, false)
    modifies t`numBucketsIdx, t`deleted, t`values, t`keys, t`counts
    ensures t.Valid() && t.TakesOne() && Search(t.K, t.View(), k, b, false) && t.Denoted() == old(t.Denoted())
  {
    hide Contents, TableSize, LiveSet, Findable, DistinctKeys, PathLive, Bag, Slots;
    b := idx;
    if TableCapacity(t.numBucketsIdx) < t.usedBuckets + 1 {
      NotHeld(t.K, t.View(), k);
      t.Rehash(1);
      TableFits(t.numBucketsIdx);
      NotHeldBack(t.K, t.View(), k);
      b := FindEmpty(t.K, t.Now(), k);
    }
  }

  method ShiftUp(t: Table, p: Word, b: int, k: Word)
    requires t.Valid() && t.hasKeys && !t.own.values && Numbered(t.K, t.Denoted(), t.usedBuckets)
    requires t.usedBuckets <= SUB_ONE
    requires Search(t.K, t.View(), k, b, false)
    modifies t`values, t`valueRefs
    ensures t.Valid() && t.TakesOne() == old(t.TakesOne()) && Search(t.K, t.View(), k, b, false)
    ensures t.Denoted() == MapValues(old(t.Denoted()), UpRead(p))
  {
    hide Contents, TableSize, TableCapacity, LiveSet, TombSet, Findable, DistinctKeys, PathLive, Slots, Shaped, Search,
      Bag, Lawful, Numbered, RenumberedTo, MapValues, UpRead;
    NumberTable(t);
    ghost var s := t.View();
    IncFrom(t, p);
    RenumberKeeps(t.K, s, UpRead(p), t.View());
    RenumberBag(s, UpRead(p), t.View());
    RenumberSearch(t.K, s, UpRead(p), t.View(), k, b);
  }

  /** `CFBasicHashRemoveIntValueAndDec`: the key with number `p`, held once, goes and the numbers above move down. */
  method RemoveIntValueAndDec(t: Table, p: Word)
    requires t.Valid() && t.hasKeys && !t.own.values
    requires p < t.usedBuckets && Numbered(t.K, t.Denoted(), t.usedBuckets)
    requires forall k :: k in t.Denoted() && t.Denoted()[k].value == p ==> t.Denoted()[k].count == 1
    modifies t
    ensures t.Valid() && Numbered(t.K, t.Denoted(), t.usedBuckets) && t.usedBuckets == old(t.usedBuckets) - 1
    ensures exists k :: k in old(t.Denoted()) && old(t.Denoted())[k].value == p
                        && t.Denoted() == Taken(t.K, old(t.Denoted()), k, p)
    ensures forall q :: q in old(t.Denoted()) && old(t.Denoted())[q].value == p ==> q !in t.Denoted()
    ensures forall q :: q in old(t.Denoted()) && old(t.Denoted())[q].value != p ==>
              && q in t.Denoted() && t.Denoted()[q].key == old(t.Denoted())[q].key
              && t.Denoted()[q].count == old(t.Denoted())[q].count
              && t.Denoted()[q].value == old(t.Denoted())[q].value - if p < old(t.Denoted())[q].value then 1 else 0
  {
    hide Table.Sound, Table.Balanced, Contents, Drop, Search, Shaped, Slots, TableSize, TableCapacity, LiveSet, TombSet,
      Numbered, Respects, MapValues, RenumberedTo, Lawful, DistinctKeys, Findable, Holds, Taken, Down;
    NumberTable(t);
    NumbersEnd(t);
    ghost var m, n := t.Denoted(), t.usedBuckets;
    var b, k := ShiftDown(t, p);
    t.RemoveAt(b, k);
    RemoveKeepsNumbers(t.K, m, n, k, p);
    TakenIs(t.K, m, k, p);
    TakenAt(t.K, m, n, k, p);
  }

  lemma TakenIs(K: Keying, m: imap<Word, Entry>, k: Word, p: Word)
    ensures Taken(K, m, k, p) == Drop(K, MapValues(m, Down(p)), k)
  {
  }

  method ShiftDown(t: Table, p: Word) returns (b: nat, ghost k: Word)
    requires t.Valid() && t.hasKeys && !t.own.values && t.usedBuckets <= SUB_ONE
    requires p < t.usedBuckets && Numbered(t.K, t.Denoted(), t.usedBuckets)
    requires forall k :: k in t.Denoted() && t.Denoted()[k].value == p ==> t.Denoted()[k].count == 1
    modifies t`values, t`valueRefs
    ensures t.Valid() && b < |t.values| && Holds(t.K, t.View(), k, b) && t.View()[b].entry.count == 1
    ensures k in old(t.Denoted()) && old(t.Denoted())[k].value == p
    ensures t.Denoted() == MapValues(old(t.Denoted()), Down(p))
  {
    hide Contents, TableSize, TableCapacity, LiveSet, TombSet, Findable, DistinctKeys, PathLive, Slots, Shaped, Search,
      Bag, Lawful, Numbered, MapValues;
    NumberTable(t);
    ghost var s := t.View();
    ghost var at := EveryNumberUsed(t.K, s, p);
    var b' := DecAbove(t, p);
    b := b';
    k := s[b].entry.key;
    RenumberKeeps(t.K, s, Down(p), t.View());
    RenumberBag(s, Down(p), t.View());
    SelfHeld(t.K, s, b);
    SelfHeld(t.K, t.View(), b);
  }

  lemma SelfHeld(K: Keying, s: seq<Slot>, b: nat)
    requires Lawful(K) && DistinctKeys(K, s) && b < |s| && s[b].Live?
    ensures Holds(K, s, s[b].entry.key, b)
    ensures s[b].entry.key in Contents(K, s) && Contents(K, s)[s[b].entry.key] == s[b].entry
  {
    ContentsAt(K, s, s[b].entry.key, b);
  }

  /** The stores after the writes of `__CFBasicHashRemoveValue` on one bucket. */
  function Erased(t: Stores, b: nat): Stores
    requires Shaped(t) && b < |t.values| && t.hasCounts && t.counts[b] > 0
  {
    t.(values := t.values[b := DELETED],
       keys := if t.hasKeys then t.keys[b := DELETED] else t.keys,
       counts := t.counts[b := t.counts[b] - 1])
  }

  /** Erasing the bucket of a key held more than once leaves a count without a key. */
  lemma CountLeftBehind(t: Stores, b: nat)
    requires Shaped(t) && b < |t.values| && t.hasCounts && t.counts[b] > 0
    ensures Shaped(Erased(t, b)) <==> t.counts[b] == 1
  {
    assert Erased(t, b).values[b] == DELETED && Erased(t, b).counts[b] == t.counts[b] - 1;
  }
}
