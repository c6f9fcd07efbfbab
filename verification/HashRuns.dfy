/** Whole runs of table operations, enumeration, and comparison of tables. */
module HashRuns {
  import opened HashSlots
  import opened HashTables
  import opened HashStores
  import opened BasicHash

  // ---------- Runs

  datatype Op =
    | AddOp(k: Word, v: Word)
    | ReplaceOp(k: Word, v: Word)
    | SetOp(k: Word, v: Word)
    | RemoveOp(k: Word)
    | RemoveAllOp
    | SetCapacityOp(capacity: nat)

  /** The number of entries a table can be grown to one by one. */
  function Limit(fastGrow: bool): nat { if fastGrow then NEXT_CAPACITY else TOP_CAPACITY }

  /** What a caller must respect: no substitute words, and sets store their keys as values. */
  predicate Allowed(op: Op, hasKeys: bool, limit: nat) {
    match op
    case RemoveOp(_) => true
    case RemoveAllOp => true
    case SetCapacityOp(n) => n <= limit
    case _ => Legal(op.k) && Legal(op.v) && (!hasKeys ==> op.k == op.v)
  }

  ghost function Effect(K: Keying, hasCounts: bool, m: imap<Word, Entry>, op: Op): imap<Word, Entry> {
    match op
    case AddOp(k, v) => AddTo(K, hasCounts, m, k, v)
    case ReplaceOp(k, v) => ReplaceIn(K, m, k, v)
    case SetOp(k, v) => SetIn(K, m, k, v)
    case RemoveOp(k) => if Legal(k) then RemoveFrom(K, m, k) else m
    case RemoveAllOp => imap[]
    case SetCapacityOp(_) => m
  }

  ghost function Effects(K: Keying, hasCounts: bool, m: imap<Word, Entry>, ops: seq<Op>): imap<Word, Entry> {
    if ops == [] then m
    else Effect(K, hasCounts, Effects(K, hasCounts, m, ops[..|ops| - 1]), ops[|ops| - 1])
  }

  lemma InUse(t: Table)
    requires t.Valid()
    ensures Shaped(t.Now()) && |t.View()| == |t.values| && t.usedBuckets == |LiveSet(t.View())|
  {
  }

  /**
    After any run of operations the table denotes what the operations prescribe, and its
    counters, load and references are in order.
   */
  method Run(t: Table, ops: seq<Op>)
    requires t.Valid() && t.usedBuckets + |ops| <= Limit(t.fastGrow)
    requires forall i :: 0 <= i < |ops| ==> Allowed(ops[i], t.hasKeys, Limit(t.fastGrow))
    modifies t
    ensures t.Valid()
    ensures t.Denoted() == Effects(t.K, t.hasCounts, old(t.Denoted()), ops)
  {
    hide Table.Sound, Table.Balanced, Contents, AddTo, ReplaceIn, SetIn, RemoveFrom, TableCapacity, LiveSet, TombSet;
    InUse(t);
    ghost var was := t.Denoted();
    var i := 0;
    while i < |ops|
      invariant 0 <= i <= |ops| && t.Valid() && Shaped(t.Now()) && t.usedBuckets + |ops| - i <= Limit(t.fastGrow)
      invariant t.Denoted() == Effects(t.K, t.hasCounts, was, ops[..i])
    {
      assert ops[..i + 1][..i] == ops[..i];
      PerformOp(t, ops[i]);
      InUse(t);
      i := i + 1;
    }
    assert ops[..i] == ops;
  }

  method PerformOp(t: Table, op: Op)
    requires t.Valid() && t.usedBuckets < Limit(t.fastGrow) && Allowed(op, t.hasKeys, Limit(t.fastGrow))
    modifies t
    ensures t.Valid() && t.usedBuckets <= old(t.usedBuckets) + 1
    ensures t.Denoted() == Effect(t.K, t.hasCounts, old(t.Denoted()), op)
  {
    hide Table.Sound, Table.Balanced, Contents, AddTo, ReplaceIn, SetIn, RemoveFrom, TableCapacity, LiveSet, TombSet;
    match op
    case AddOp(k, v) => var _ := t.Add(k, v);
    case ReplaceOp(k, v) => t.Replace(k, v);
    case SetOp(k, v) => t.Set(k, v);
    case RemoveOp(k) => var _ := t.Remove(k);
    case RemoveAllOp => t.RemoveAll();
    case SetCapacityOp(n) => t.SetCapacity(n);
  }

  // ---------- Enumeration

  /** The live buckets below `n` in ascending order. */
  ghost function LiveBelow(s: seq<Slot>, n: nat): (r: seq<nat>)
    requires n <= |s|
  {
    if n == 0 then [] else LiveBelow(s, n - 1) + if s[n - 1].Live? then [n - 1] else []
  }

  lemma {:induction false} LiveBelowCount(s: seq<Slot>, n: nat)
    requires n <= |s|
    ensures |LiveBelow(s, n)| == |LiveSet(s[..n])|
  {
    if n > 0 {
      LiveBelowCount(s, n - 1);
      assert LiveSet(s[..n]) == LiveSet(s[..n - 1]) + if s[n - 1].Live? then {n - 1} else {};
    }
  }

  /** Once as many live buckets were met as there are, none is left. */
  lemma {:induction false} NoneLeft(s: seq<Slot>, n: nat)
    requires n <= |s| && |LiveBelow(s, n)| == |LiveSet(s)|
    ensures LiveBelow(s, n) == LiveBelow(s, |s|)
    decreases |s| - n
  {
    if n < |s| {
      LiveBelowCount(s, n + 1);
      SubsetSize(LiveSet(s[..n + 1]), LiveSet(s));
      NoneLeft(s, n + 1);
    }
  }

  /** Every bucket of the list is in the table and live. */
  ghost predicate AllLive(s: seq<Slot>, visits: seq<nat>) {
    forall k :: 0 <= k < |visits| ==> visits[k] < |s| && s[visits[k]].Live?
  }

  /** Every bucket of the list holds an entry the block lets pass. */
  ghost predicate AllPass(s: seq<Slot>, visits: seq<nat>, block: Entry -> bool)
    requires AllLive(s, visits)
  {
    forall k :: 0 <= k < |visits| ==> block(s[visits[k]].entry)
  }

  /** The part of `visits` up to and including the first the block refuses. */
  ghost function UpToRefusal(s: seq<Slot>, visits: seq<nat>, block: Entry -> bool): seq<nat>
    requires AllLive(s, visits)
  {
    if visits == [] then []
    else if !block(s[visits[0]].entry) then [visits[0]]
    else [visits[0]] + UpToRefusal(s, visits[1..], block)
  }

  /** The list holds exactly the live buckets, each once, in ascending order. */
  lemma {:induction false} LiveBelowExact(s: seq<Slot>, n: nat)
    requires n <= |s|
    ensures AllLive(s, LiveBelow(s, n))
    ensures forall i :: i in LiveBelow(s, n) <==> 0 <= i < n && s[i].Live?
    ensures forall j, k :: 0 <= j < k < |LiveBelow(s, n)| ==> LiveBelow(s, n)[j] < LiveBelow(s, n)[k]
  {
    if n > 0 {
      LiveBelowExact(s, n - 1);
    }
  }

  lemma {:induction false} AllAccepted(s: seq<Slot>, done: seq<nat>, rest: seq<nat>, block: Entry -> bool)
    requires AllLive(s, done) && AllPass(s, done, block) && AllLive(s, rest)
    ensures AllLive(s, done + rest)
    ensures UpToRefusal(s, done + rest, block) == done + UpToRefusal(s, rest, block)
  {
    if done == [] {
      assert done + rest == rest;
    } else {
      assert (done + rest)[1..] == done[1..] + rest;
      assert forall k :: 0 <= k < |done| - 1 ==> done[1..][k] == done[k + 1];
      AllAccepted(s, done[1..], rest, block);
    }
  }

  /** The list from a live bucket on, split off. */
  lemma {:induction false} LiveFrom(s: seq<Slot>, m: nat, n: nat) returns (rest: seq<nat>)
    requires m < n <= |s| && s[m].Live?
    ensures LiveBelow(s, n) == LiveBelow(s, m) + rest && rest != [] && rest[0] == m
    ensures AllLive(s, rest)
  {
    if n == m + 1 {
      rest := [m];
    } else {
      rest := LiveFrom(s, m, n - 1);
      var last := if s[n - 1].Live? then [n - 1] else [];
      assert LiveBelow(s, m) + rest + last == LiveBelow(s, m) + (rest + last);
      rest := rest + last;
    }
  }

  lemma StopsHere(s: seq<Slot>, idx: nat, block: Entry -> bool)
    requires idx < |s| && s[idx].Live? && !block(s[idx].entry)
    requires AllLive(s, LiveBelow(s, idx)) && AllPass(s, LiveBelow(s, idx), block)
    ensures AllLive(s, LiveBelow(s, |s|))
    ensures UpToRefusal(s, LiveBelow(s, |s|), block) == LiveBelow(s, idx) + [idx]
  {
    var rest := LiveFrom(s, idx, |s|);
    AllAccepted(s, LiveBelow(s, idx), rest, block);
  }

  lemma StopsEarly(s: seq<Slot>, idx: nat, block: Entry -> bool)
    requires idx <= |s| && (idx == |s| || |LiveBelow(s, idx)| == |LiveSet(s)|)
    requires AllLive(s, LiveBelow(s, idx)) && AllPass(s, LiveBelow(s, idx), block)
    ensures AllLive(s, LiveBelow(s, |s|))
    ensures UpToRefusal(s, LiveBelow(s, |s|), block) == LiveBelow(s, idx)
  {
    if idx < |s| {
      NoneLeft(s, idx);
    }
    var visited := LiveBelow(s, idx);
    AllAccepted(s, visited, [], block);
    assert visited + [] == visited;
  }

  /**
    `CFBasicHashApply`: the block sees every live bucket once, in order, until it refuses
    one, although the loop stops early when as many as are in use have been seen.
   */
  method Apply(t: Table, block: Entry -> bool) returns (visited: seq<nat>)
    requires t.Valid()
    ensures AllLive(t.View(), LiveBelow(t.View(), |t.values|))
    ensures visited == UpToRefusal(t.View(), LiveBelow(t.View(), |t.values|), block)
    ensures forall k :: 0 <= k < |visited| ==> visited[k] < |t.values| && t.View()[visited[k]].Live?
    ensures forall j, k :: 0 <= j < k < |visited| ==> visited[j] < visited[k] && block(t.View()[visited[j]].entry)
    ensures forall i :: 0 <= i < |t.values| && t.View()[i].Live? && i !in visited ==>
              visited != [] && visited[|visited| - 1] < i && !block(t.View()[visited[|visited| - 1]].entry)
  {
    hide UpToRefusal, LiveBelow;
    var used := t.usedBuckets;
    ghost var s := t.View();
    InUse(t);
    visited := Scan(t.Now(), s, used, block);
    Seen(s, visited, block);
  }

  /** What has been seen, bucket by bucket. */
  lemma Seen(s: seq<Slot>, visited: seq<nat>, block: Entry -> bool)
    requires AllLive(s, LiveBelow(s, |s|)) && visited == UpToRefusal(s, LiveBelow(s, |s|), block)
    ensures forall k :: 0 <= k < |visited| ==> visited[k] < |s| && s[visited[k]].Live?
    ensures forall j, k :: 0 <= j < k < |visited| ==> visited[j] < visited[k] && block(s[visited[j]].entry)
    ensures forall i :: 0 <= i < |s| && s[i].Live? && i !in visited ==>
              visited != [] && visited[|visited| - 1] < i && !block(s[visited[|visited| - 1]].entry)
  {
    hide UpToRefusal, LiveBelow;
    var list := LiveBelow(s, |s|);
    LiveBelowExact(s, |s|);
    Refusal(s, list, block);
    forall j, k | 0 <= j < k < |visited| ensures visited[j] < visited[k] && block(s[visited[j]].entry) {
      assert list[j] < list[k] && visited[j] == list[j] && visited[k] == list[k];
    }
    forall i | 0 <= i < |s| && s[i].Live? && i !in visited
      ensures visited != [] && visited[|visited| - 1] < i && !block(s[visited[|visited| - 1]].entry)
    {
      assert i in list;
      LastSeen(list, visited, i);
    }
  }

  lemma LastSeen(list: seq<nat>, visited: seq<nat>, i: nat)
    requires visited <= list && i in list && i !in visited
    requires forall j, k :: 0 <= j < k < |list| ==> list[j] < list[k]
    ensures |visited| < |list| && (visited != [] ==> visited[|visited| - 1] < i)
  {
    var p :| 0 <= p < |list| && list[p] == i;
    assert p >= |visited|;
  }

  /** What the block sees: an ascending start of the list, and all of it unless the last was refused. */
  lemma {:induction false} Refusal(s: seq<Slot>, visits: seq<nat>, block: Entry -> bool)
    requires AllLive(s, visits)
    ensures var v := UpToRefusal(s, visits, block);
      && v <= visits
      && (forall j :: 0 <= j < |v| - 1 ==> block(s[v[j]].entry))
      && (|v| < |visits| ==> v != [] && !block(s[v[|v| - 1]].entry))
  {
    if visits != [] && block(s[visits[0]].entry) {
      Refusal(s, visits[1..], block);
    }
  }

  method Scan(m: Stores, ghost s: seq<Slot>, inUse: nat, block: Entry -> bool) returns (visited: seq<nat>)
    requires Shaped(m) && s == Slots(m) && inUse == |LiveSet(s)|
    ensures AllLive(s, LiveBelow(s, |s|))
    ensures visited == UpToRefusal(s, LiveBelow(s, |s|), block)
  {
    hide LiveSet;
    var used, cnt := inUse, |m.values|;
    visited := [];
    var idx := 0;
    while 0 < used && idx < cnt
      invariant 0 <= idx <= cnt && used >= 0
      invariant visited == LiveBelow(s, idx) && |visited| + used == inUse
      invariant AllLive(s, visited) && AllPass(s, visited, block)
      decreases cnt - idx
    {
      if !IsMark(m.values[idx]) {
        var entry := SlotAt(m, idx).entry;
        if !block(entry) {
          StopsHere(s, idx, block);
          return visited + [idx];
        }
        visited := visited + [idx];
        used := used - 1;
      }
      idx := idx + 1;
    }
    StopsEarly(s, idx, block);
  }
}
