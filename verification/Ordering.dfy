/** What the sorting, searching and heap operations ask of a comparator callback. */
module Ordering {
  type Item = nat  // a reference; 0 is NULL

  type Comparator = (Item, Item) -> int

  /** The comparator is a total preorder: consistent under exchange of its arguments, and transitive. */
  ghost predicate Orders(cmp: Comparator) {
    && (forall a, b :: cmp(a, b) < 0 <==> cmp(b, a) > 0)
    && forall a, b, c :: cmp(a, b) <= 0 && cmp(b, c) <= 0 ==> cmp(a, c) <= 0
  }

  ghost predicate Sorted(cmp: Comparator, s: seq<Item>) {
    forall i, j :: 0 <= i < j < |s| ==> cmp(s[i], s[j]) <= 0
  }

  lemma OrderTrans(cmp: Comparator, a: Item, b: Item, c: Item)
    requires Orders(cmp) && cmp(a, b) <= 0 && cmp(b, c) <= 0
    ensures cmp(a, c) <= 0
  {
  }
}
