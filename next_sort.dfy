/** `useNextSort` of src/features/utils/useNextSort.ts: the sort key for a new list item. */
module NextSort {
  /** `Math.max(...sorts)` of a non-empty list. */
  function Max(sorts: seq<int>): (m: int)
    requires sorts != []
    ensures m in sorts
    ensures forall s :: s in sorts ==> s <= m
  {
    if |sorts| == 1 then sorts[0]
    else
      var rest := Max(sorts[1..]);
      assert forall s :: s in sorts ==> s == sorts[0] || s in sorts[1..];
      if sorts[0] >= rest then sorts[0] else rest
  }

  /** The sort keys of the items, in order: `items.map((i) => i.sort)`. */
  function NextSort(sorts: seq<int>): (r: int)
    ensures sorts == [] ==> r == 1
    ensures sorts != [] ==> r - 1 in sorts
    ensures forall s :: s in sorts ==> s < r
  {
    if |sorts| == 0 then 1 else Max(sorts) + 1
  }

  /**
   * The next key depends only on which keys are present, not on their order or repetition: two
   * lists with the same keys, in any order, give the same next key.
   */
  lemma NextSortOrderFree(a: seq<int>, b: seq<int>)
    requires forall s :: s in a <==> s in b
    ensures NextSort(a) == NextSort(b)
  {
    if a != [] && b != [] {
      var ra, rb := NextSort(a), NextSort(b);
      assert ra - 1 in b && rb - 1 in a;
      assert !(ra < rb) && !(rb < ra);
    } else if a != [] {
      assert a[0] in a;
    } else if b != [] {
      assert b[0] in b;
    }
  }

  /** In particular reordering the items (a permutation) keeps the next key. */
  lemma NextSortPermutation(a: seq<int>, b: seq<int>)
    requires multiset(a) == multiset(b)
    ensures NextSort(a) == NextSort(b)
  {
    assert forall s :: s in a <==> s in multiset(a);
    assert forall s :: s in b <==> s in multiset(b);
    NextSortOrderFree(a, b);
  }
}
