/** The ordering primitive `SortableBlock`: blocks ranked by blue work, ties broken by hash.
    Its definition is in a file outside this model; it is taken here to be the
    lexicographic order on (blue work, hash). */
module Ordering {
  import opened Common

  /** Blue work is a 192-bit unsigned integer (`BlueWorkType`). */
  const BLUE_WORK_MAX: nat := TWO_192 - 1

  datatype SortableBlock = SortableBlock(hash: Hash, blueWork: nat)

  /** The strict order `a < b` on sortable blocks. */
  predicate Less(a: SortableBlock, b: SortableBlock) {
    a.blueWork < b.blueWork || (a.blueWork == b.blueWork && a.hash < b.hash)
  }

  /** `Less` is a strict total order on sortable blocks. */
  lemma LessIsStrictTotalOrder()
    ensures forall a: SortableBlock :: !Less(a, a)
    ensures forall a: SortableBlock, b: SortableBlock, c: SortableBlock :: Less(a, b) && Less(b, c) ==> Less(a, c)
    ensures forall a: SortableBlock, b: SortableBlock :: a != b ==> Less(a, b) || Less(b, a)
    ensures forall a: SortableBlock, b: SortableBlock :: !(Less(a, b) && Less(b, a))
  {
  }

  /** The least block of a non-empty collection: the element first in line for eviction
      from a `BinaryHeap<Reverse<SortableBlock>>`, the one `peek` returns. */
  function MinBlock(s: seq<SortableBlock>): (m: SortableBlock)
    requires |s| > 0
    ensures m in s
    ensures forall x | x in s :: !Less(x, m)
  {
    if |s| == 1 then s[0]
    else
      var rest := MinBlock(s[1..]);
      assert forall x | x in s :: x == s[0] || x in s[1..];
      if Less(s[0], rest) then s[0] else rest
  }

  /** Two least elements are the same block: the minimum is unique. */
  lemma MinBlockUnique(s: seq<SortableBlock>, m: SortableBlock)
    requires m in s && forall x | x in s :: !Less(x, m)
    ensures |s| > 0 && m == MinBlock(s)
  {
    LessIsStrictTotalOrder();
  }

  /** The minimum depends only on the multiset of blocks, not on the heap's layout. */
  lemma MinBlockOrderInvariant(s: seq<SortableBlock>, t: seq<SortableBlock>)
    requires |s| > 0 && multiset(s) == multiset(t)
    ensures |t| > 0 && MinBlock(s) == MinBlock(t)
  {
    assert forall x :: x in s <==> x in multiset(s);
    assert forall x :: x in t <==> x in multiset(t);
    var m := MinBlock(s);
    assert m in t;
    MinBlockUnique(t, m);
  }
}
