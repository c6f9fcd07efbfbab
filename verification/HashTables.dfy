/** The bucket-count and capacity tables, and the encoding of words that clash with slot marks. */
module HashTables {
  import opened HashSlots

  const LAST := 44  // the last table entry in use

  /** `__CFBasicHashTableSizes`; entries past the last one are zero. */
  function TableSize(idx: nat): (n: nat) {
    match idx
    case 0 => 0
    case 1 => 3
    case 2 => 7
    case 3 => 13
    case 4 => 23
    case 5 => 41
    case 6 => 71
    case 7 => 127
    case 8 => 191
    case 9 => 251
    case 10 => 383
    case 11 => 631
    case 12 => 1087
    case 13 => 1723
    case 14 => 2803
    case 15 => 4523
    case 16 => 7351
    case 17 => 11959
    case 18 => 19447
    case 19 => 31231
    case 20 => 50683
    case 21 => 81919
    case 22 => 132607
    case 23 => 214519
    case 24 => 346607
    case 25 => 561109
    case 26 => 907759
    case 27 => 1468927
    case 28 => 2376191
    case 29 => 3845119
    case 30 => 6221311
    case 31 => 10066421
    case 32 => 16287743
    case 33 => 26354171
    case 34 => 42641881
    case 35 => 68996069
    case 36 => 111638519
    case 37 => 180634607
    case 38 => 292272623
    case 39 => 472907251
    case 40 => 765180413
    case 41 => 1238087663
    case 42 => 2003267557
    case 43 => 3241355263
    case 44 => 5244622819
    case _ => 0
  }

  /** `__CFBasicHashTableCapacities`. */
  function TableCapacity(idx: nat): (n: nat) {
    match idx
    case 0 => 0
    case 1 => 3
    case 2 => 6
    case 3 => 11
    case 4 => 19
    case 5 => 32
    case 6 => 52
    case 7 => 85
    case 8 => 118
    case 9 => 155
    case 10 => 237
    case 11 => 390
    case 12 => 672
    case 13 => 1065
    case 14 => 1732
    case 15 => 2795
    case 16 => 4543
    case 17 => 7391
    case 18 => 12019
    case 19 => 19302
    case 20 => 31324
    case 21 => 50629
    case 22 => 81956
    case 23 => 132580
    case 24 => 214215
    case 25 => 346784
    case 26 => 561026
    case 27 => 907847
    case 28 => 1468567
    case 29 => 2376414
    case 30 => 3844982
    case 31 => 6221390
    case 32 => 10066379
    case 33 => 16287773
    case 34 => 26354132
    case 35 => 42641916
    case 36 => 68996399
    case 37 => 111638327
    case 38 => 180634415
    case 39 => 292272755
    case 40 => 472907503
    case 41 => 765180257
    case 42 => 1238087439
    case 43 => 2003267722
    case 44 => 3241355160
    case _ => 0
  }

  lemma TableFits(idx: nat)
    requires idx <= LAST
    ensures TableCapacity(idx) <= TableSize(idx)
    ensures idx >= 1 ==> TableSize(idx) > 0
  {
  }

  lemma TableGrows(idx: nat)
    requires idx < LAST
    ensures TableCapacity(idx) < TableCapacity(idx + 1) && TableSize(idx) < TableSize(idx + 1)
  {
  }

  const TOP_CAPACITY := 3241355160   // capacity of the last entry
  const NEXT_CAPACITY := 2003267722  // capacity of the entry before it

  lemma TableTop(idx: nat)
    requires idx <= LAST
    ensures TableCapacity(idx) <= TOP_CAPACITY && (idx < LAST ==> TableCapacity(idx) <= NEXT_CAPACITY)
  {
  }

  /** `__CFBasicHashGetNumBucketsIndexForCapacity`: the first table entry that is large enough. */
  method IndexForCapacity(capacity: nat) returns (idx: nat)
    requires capacity <= TOP_CAPACITY
    ensures idx <= LAST && capacity <= TableCapacity(idx)
    ensures forall j :: 0 <= j < idx ==> TableCapacity(j) < capacity
    ensures capacity <= NEXT_CAPACITY ==> idx < LAST
  {
    idx := 0;
    while idx < 64
      invariant 0 <= idx <= LAST
      invariant forall j :: 0 <= j < idx ==> TableCapacity(j) < capacity
      decreases 64 - idx
    {
      if capacity <= TableCapacity(idx) {
        assert idx == LAST ==> TableCapacity(LAST - 1) < capacity;
        return;
      }
      idx := idx + 1;
    }
  }

  const EMPTY: Word := 0
  const DELETED: Word := WORD_MAX
  const SUB_ZERO: Word := 0xA7BA_ADB1
  const SUB_ONE: Word := 0xA5BA_ADB9

  /** Words a caller may store; the substitutes themselves are refused. */
  predicate Legal(w: Word) {
    w != SUB_ZERO && w != SUB_ONE
  }

  predicate IsMark(w: Word) {
    w == EMPTY || w == DELETED
  }

  function Store(w: Word): (r: Word)
    ensures !IsMark(r)
  {
    if w == 0 then SUB_ZERO else if w == WORD_MAX then SUB_ONE else w
  }

  function Load(w: Word): (r: Word)
    ensures Legal(r)
  {
    if w == SUB_ZERO then 0 else if w == SUB_ONE then WORD_MAX else w
  }

  /** Substitution is undone on reading, exactly for the legal words. */
  lemma LoadStore(w: Word)
    ensures Load(Store(w)) == w <==> Legal(w)
    ensures !IsMark(w) ==> Store(Load(w)) == w
  {
  }

  /** Stored themselves, the substitute words come back as the words they stand for. */
  lemma SubstitutesChanged()
    ensures Load(Store(SUB_ZERO)) == 0 && Load(Store(SUB_ONE)) == WORD_MAX
  {
  }
}
