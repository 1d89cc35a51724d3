/** DAG traversal queries (`DagTraversalManager`): the chain path between two chain blocks,
    the anticone of a block with respect to a set of tips, and the lowest chain block above a
    blue score; and the size-bounded window heap. */
module Traversal {
  import opened Common
  import opened Ordering

  /** The compact GHOSTDAG data of a block: its blue score and its selected parent. */
  datatype GhostdagCompact = GhostdagCompact(blueScore: u64, selectedParent: Hash)

  /** The traversal manager and the read-only stores it queries. The selected-parent chain
      comes from the GHOSTDAG store; `is_dag_ancestor_of` of the reachability service is an
      oracle; `origin` is the virtual placeholder hash `ORIGIN`, whose value is defined outside
      this model. */
  datatype DagTraversalManager = DagTraversalManager(
    genesisHash: Hash,
    origin: Hash,
    ghostdag: map<Hash, GhostdagCompact>,
    parents: map<Hash, seq<Hash>>,
    isDagAncestorOf: (Hash, Hash) -> bool)

  /** Store invariant: genesis is known, and every other known block has a known selected
      parent of strictly smaller blue score, so every selected chain ends at genesis. */
  ghost predicate Wf(t: DagTraversalManager) {
    && t.genesisHash in t.ghostdag
    && forall h {:trigger SelectedParent(t, h)} | h in t.ghostdag && h != t.genesisHash ::
         && SelectedParent(t, h) in t.ghostdag
         && BlueScore(t, SelectedParent(t, h)) < BlueScore(t, h)
  }

  function BlueScore(t: DagTraversalManager, h: Hash): u64
    requires h in t.ghostdag
  {
    t.ghostdag[h].blueScore
  }

  function SelectedParent(t: DagTraversalManager, h: Hash): Hash
    requires h in t.ghostdag
  {
    t.ghostdag[h].selectedParent
  }

  // ---------------------------------------------------------------------------------------
  // The selected chain
  // ---------------------------------------------------------------------------------------

  /** The blocks `default_backward_chain_iterator(h)` yields: `h`, its selected parent, and so
      on down to genesis. */
  function BackwardChain(t: DagTraversalManager, h: Hash): (c: seq<Hash>)
    requires Wf(t) && h in t.ghostdag
    ensures |c| > 0 && c[0] == h && c[|c| - 1] == t.genesisHash
    ensures forall x | x in c :: x in t.ghostdag && BlueScore(t, x) <= BlueScore(t, h)
    decreases BlueScore(t, h)
  {
    if h == t.genesisHash then [h]
    else [h] + BackwardChain(t, SelectedParent(t, h))
  }

  /** Each chain block but the last is not genesis and is followed by its selected parent. */
  lemma {:induction false} ChainSteps(t: DagTraversalManager, h: Hash, i: nat)
    requires Wf(t) && h in t.ghostdag && i + 1 < |BackwardChain(t, h)|
    ensures BackwardChain(t, h)[i] != t.genesisHash
    ensures BackwardChain(t, h)[i + 1] == SelectedParent(t, BackwardChain(t, h)[i])
    decreases i
  {
    if i > 0 {
      ChainSteps(t, SelectedParent(t, h), i - 1);
    }
  }

  /** `is_chain_ancestor_of(a, b)`: `a` lies on the selected chain of `b`, `b` included. */
  predicate IsChainAncestorOf(t: DagTraversalManager, a: Hash, b: Hash)
    requires Wf(t) && b in t.ghostdag
  {
    a in BackwardChain(t, b)
  }

  /** The chain below any of its blocks is that block's own chain. */
  lemma {:induction false} ChainSuffix(t: DagTraversalManager, h: Hash, p: nat)
    requires Wf(t) && h in t.ghostdag && p < |BackwardChain(t, h)|
    ensures BackwardChain(t, h)[p..] == BackwardChain(t, BackwardChain(t, h)[p])
    decreases p
  {
    if p > 0 {
      var c := BackwardChain(t, h);
      var rest := BackwardChain(t, SelectedParent(t, h));
      assert c[1..] == rest;
      ChainSuffix(t, SelectedParent(t, h), p - 1);
      assert c[p..] == rest[p - 1..];
    }
  }

  /** A block occurs once in a chain, so its position is determined. */
  lemma {:induction false} ChainPositionUnique(t: DagTraversalManager, h: Hash, i: nat, j: nat)
    requires Wf(t) && h in t.ghostdag
    requires i < |BackwardChain(t, h)| && j < |BackwardChain(t, h)|
    requires BackwardChain(t, h)[i] == BackwardChain(t, h)[j]
    ensures i == j
    decreases i + j
  {
    var c := BackwardChain(t, h);
    if h != t.genesisHash {
      var sp := SelectedParent(t, h);
      var rest := BackwardChain(t, sp);
      assert c == [h] + rest;
      if i > 0 && j > 0 {
        ChainPositionUnique(t, sp, i - 1, j - 1);
      }
    }
  }

  /** The chain of a chain ancestor is a suffix of the chain of the descendant. */
  lemma ChainOfAncestor(t: DagTraversalManager, a: Hash, b: Hash)
    requires Wf(t) && b in t.ghostdag && IsChainAncestorOf(t, a, b)
    ensures a in t.ghostdag
    ensures forall x | x in BackwardChain(t, a) :: x in BackwardChain(t, b)
    ensures IndexOf(BackwardChain(t, b), a) + |BackwardChain(t, a)| == |BackwardChain(t, b)|
  {
    var c := BackwardChain(t, b);
    var p := IndexOf(c, a);
    ChainSuffix(t, b, p);
  }

  // ---------------------------------------------------------------------------------------
  // Chain path
  // ---------------------------------------------------------------------------------------

  /** A prefix one element longer is the prefix followed by that element. */
  lemma PrefixExtend(s: seq<Hash>, k: nat)
    requires k < |s|
    ensures s[..k + 1] == s[..k] + [s[k]]
  {
  }

  /** The position of the first occurrence of `x` in `s`. */
  function IndexOf(s: seq<Hash>, x: Hash): (i: nat)
    requires x in s
    ensures i < |s| && s[i] == x && forall j | 0 <= j < i :: s[j] != x
  {
    if s[0] == x then 0 else 1 + IndexOf(s[1..], x)
  }

  /** The position of the first element of `s` that occurs in `u`. */
  function FirstCommonIndex(s: seq<Hash>, u: seq<Hash>): (i: nat)
    requires |s| > 0 && s[|s| - 1] in u
    ensures i < |s| && s[i] in u && forall j | 0 <= j < i :: s[j] !in u
  {
    if s[0] in u then 0 else 1 + FirstCommonIndex(s[1..], u)
  }

  function Reverse(s: seq<Hash>): (r: seq<Hash>)
    ensures |r| == |s| && forall i | 0 <= i < |s| :: r[i] == s[|s| - 1 - i]
  {
    if s == [] then [] else Reverse(s[1..]) + [s[0]]
  }

  lemma ReverseReverse(s: seq<Hash>)
    ensures Reverse(Reverse(s)) == s
  {
  }

  /** `ChainPath`: the chain blocks to add, from just above the common ancestor up to `to`,
      and the chain blocks to remove, from `from` down to just above the common ancestor. */
  datatype ChainPath = ChainPath(added: seq<Hash>, removed: seq<Hash>)

  /** The highest chain block of `from` that is a chain ancestor of `to`. */
  function CommonChainAncestor(t: DagTraversalManager, from: Hash, to: Hash): (ca: Hash)
    requires Wf(t) && from in t.ghostdag && to in t.ghostdag
    ensures IsChainAncestorOf(t, ca, from) && IsChainAncestorOf(t, ca, to)
  {
    var fc := BackwardChain(t, from);
    fc[FirstCommonIndex(fc, BackwardChain(t, to))]
  }

  /** The chain path `calculate_chain_path` returns, described by the chains of both ends:
      `removed` is the longest prefix of the chain of `from` without chain ancestors of `to`,
      and `added` is the prefix of the chain of `to` above the block where that prefix
      stops, reversed. */
  function ChainPathOf(t: DagTraversalManager, from: Hash, to: Hash): (r: ChainPath)
    requires Wf(t) && from in t.ghostdag && to in t.ghostdag
    ensures var ca := CommonChainAncestor(t, from, to);
      && |r.removed| < |BackwardChain(t, from)| && |r.added| < |BackwardChain(t, to)|
      && r.removed == BackwardChain(t, from)[..|r.removed|]
      && BackwardChain(t, from)[|r.removed|] == ca
      && Reverse(r.added) == BackwardChain(t, to)[..|r.added|]
      && BackwardChain(t, to)[|r.added|] == ca
      && (forall x | x in r.removed :: !IsChainAncestorOf(t, x, to))
      && ca !in r.removed && ca !in r.added
  {
    var fc, tc := BackwardChain(t, from), BackwardChain(t, to);
    var i := FirstCommonIndex(fc, tc);
    var j := IndexOf(tc, fc[i]);
    var added := Reverse(tc[..j]);
    ReverseReverse(tc[..j]);
    assert forall x | x in added :: x in tc[..j];
    ChainPath(added, fc[..i])
  }

  /** The path from a block to itself is empty. */
  lemma ChainPathToItself(t: DagTraversalManager, x: Hash)
    requires Wf(t) && x in t.ghostdag
    ensures ChainPathOf(t, x, x) == ChainPath([], [])
  {
  }

  /** A block of the chain of `to` above the common ancestor is not on the chain of `from`. */
  lemma AboveCommonAncestorNotOnFromChain(t: DagTraversalManager, from: Hash, to: Hash, k: nat)
    requires Wf(t) && from in t.ghostdag && to in t.ghostdag
    requires k < |ChainPathOf(t, from, to).added|
    ensures BackwardChain(t, to)[k] !in BackwardChain(t, from)
  {
    var fc, tc := BackwardChain(t, from), BackwardChain(t, to);
    var r := ChainPathOf(t, from, to);
    var i, j := |r.removed|, |r.added|;
    var x := tc[k];
    if x in fc {
      var l := IndexOf(fc, x);
      ChainSuffix(t, from, l);
      ChainSuffix(t, to, k);
      assert tc[j] in tc[k..];
      var m :| l <= m < |fc| && fc[m] == tc[j];
      ChainPositionUnique(t, from, m, i);
    }
  }

  /** Every added block is on the chain of `to` but not on the chain of `from`. */
  lemma AddedAreNewChainBlocks(t: DagTraversalManager, from: Hash, to: Hash)
    requires Wf(t) && from in t.ghostdag && to in t.ghostdag
    ensures forall x | x in ChainPathOf(t, from, to).added ::
      IsChainAncestorOf(t, x, to) && !IsChainAncestorOf(t, x, from)
  {
    var tc := BackwardChain(t, to);
    var r := ChainPathOf(t, from, to);
    forall x | x in r.added ensures IsChainAncestorOf(t, x, to) && !IsChainAncestorOf(t, x, from) {
      assert x in Reverse(r.added);
      var k :| 0 <= k < |r.added| && tc[k] == x;
      AboveCommonAncestorNotOnFromChain(t, from, to, k);
    }
  }

  /** The common ancestor does not depend on the direction of the path. */
  lemma CommonChainAncestorSymmetric(t: DagTraversalManager, a: Hash, b: Hash)
    requires Wf(t) && a in t.ghostdag && b in t.ghostdag
    ensures CommonChainAncestor(t, a, b) == CommonChainAncestor(t, b, a)
  {
    var ac, bc := BackwardChain(t, a), BackwardChain(t, b);
    var i := FirstCommonIndex(ac, bc);
    var k := FirstCommonIndex(bc, ac);
    var x, y := ac[i], bc[k];
    var j := IndexOf(bc, x);
    var l := IndexOf(ac, y);
    assert k <= j;
    assert i <= l;
    ChainSuffix(t, a, l);
    ChainSuffix(t, b, k);
    assert ac[l..] == bc[k..];
    assert x in bc[k..];
    var m :| l <= m < |ac| && ac[m] == x;
    ChainPositionUnique(t, a, m, i);
  }

  /** Going back is the exact reverse of going forth: the blocks removed on the way from `a`
      to `b` are those added on the way from `b` to `a`, in reverse order, and vice versa. */
  lemma ChainPathSymmetric(t: DagTraversalManager, a: Hash, b: Hash)
    requires Wf(t) && a in t.ghostdag && b in t.ghostdag
    ensures ChainPathOf(t, b, a).added == Reverse(ChainPathOf(t, a, b).removed)
    ensures ChainPathOf(t, b, a).removed == Reverse(ChainPathOf(t, a, b).added)
  {
    CommonChainAncestorSymmetric(t, a, b);
    var ca := CommonChainAncestor(t, a, b);
    var ac, bc := BackwardChain(t, a), BackwardChain(t, b);
    var ab, ba := ChainPathOf(t, a, b), ChainPathOf(t, b, a);
    // the common ancestor sits at one position of each chain
    ChainPositionUnique(t, a, |ab.removed|, |ba.added|);
    ChainPositionUnique(t, b, |ab.added|, |ba.removed|);
    assert Reverse(ba.added) == ab.removed;
    assert Reverse(ab.added) == ba.removed;
    ReverseReverse(ba.added);
  }

  /** `calculate_chain_path`: walk the chain of `from` down to the first chain ancestor of
      `to`, collecting the blocks passed, then collect the chain of `to` down to that block and
      reverse it in place. */
  method CalculateChainPath(t: DagTraversalManager, from: Hash, to: Hash) returns (path: ChainPath)
    requires Wf(t) && from in t.ghostdag && to in t.ghostdag
    ensures path == ChainPathOf(t, from, to)
  {
    var removed, commonAncestor := RemovedChainBlocks(t, from, to);
    var backward := BackwardChainIterator(t, to, commonAncestor);
    var added := ReverseInPlace(backward);
    path := ChainPath(added, removed);
  }

  /** The first loop of `calculate_chain_path`: the chain blocks of `from` passed before the
      first one that is a chain ancestor of `to`, and that block. */
  method RemovedChainBlocks(t: DagTraversalManager, from: Hash, to: Hash) returns (removed: seq<Hash>, commonAncestor: Hash)
    requires Wf(t) && from in t.ghostdag && to in t.ghostdag
    ensures removed == ChainPathOf(t, from, to).removed
    ensures commonAncestor == CommonChainAncestor(t, from, to)
  {
    ghost var fc, tc := BackwardChain(t, from), BackwardChain(t, to);
    assert t.genesisHash in tc;
    removed := [];
    var current := from;
    while !IsChainAncestorOf(t, current, to)
      invariant |removed| < |fc| && current == fc[|removed|]
      invariant removed == fc[..|removed|]
      invariant forall x | x in removed :: x !in tc
      decreases |fc| - |removed|
    {
      ChainSteps(t, from, |removed|);
      PrefixExtend(fc, |removed|);
      removed := removed + [current];
      current := SelectedParent(t, current);
    }
    commonAncestor := current;
    assert |removed| == FirstCommonIndex(fc, tc);
  }

  /** `backward_chain_iterator(high, low, false)` collected: the chain of `high` down to the
      chain ancestor `low`, exclusive. */
  method BackwardChainIterator(t: DagTraversalManager, high: Hash, low: Hash) returns (blocks: seq<Hash>)
    requires Wf(t) && high in t.ghostdag && IsChainAncestorOf(t, low, high)
    ensures blocks == BackwardChain(t, high)[..IndexOf(BackwardChain(t, high), low)]
  {
    ghost var hc := BackwardChain(t, high);
    blocks := [];
    var current := high;
    while current != low
      invariant |blocks| < |hc| && current == hc[|blocks|]
      invariant blocks == hc[..|blocks|]
      invariant low !in blocks && low in hc[|blocks|..]
      decreases |hc| - |blocks|
    {
      assert hc[|blocks|..] == [current] + hc[|blocks| + 1..];
      ChainSteps(t, high, |blocks|);
      blocks := blocks + [current];
      current := SelectedParent(t, current);
    }
    assert |blocks| == IndexOf(hc, low);
  }

  /** `Vec::reverse`: swap elements pairwise from both ends inward. */
  method ReverseInPlace(s: seq<Hash>) returns (r: seq<Hash>)
    ensures r == Reverse(s)
  {
    var a := new Hash[|s|](i requires 0 <= i < |s| => s[i]);
    var lo, hi := 0, |s|;
    while lo + 1 < hi
      invariant 0 <= lo <= hi <= |s| && lo + hi == |s|
      invariant forall k | 0 <= k < lo || hi <= k < |s| :: a[k] == s[|s| - 1 - k]
      invariant forall k | lo <= k < hi :: a[k] == s[k]
    {
      a[lo], a[hi - 1] := a[hi - 1], a[lo];
      lo, hi := lo + 1, hi - 1;
    }
    r := a[..];
  }

  // ---------------------------------------------------------------------------------------
  // Anticone
  // ---------------------------------------------------------------------------------------

  datatype TraversalError = ReachedMaxTraversalAllowed(traversalCount: nat, maxTraversalAllowed: nat)

  /** Neither an ancestor nor a descendant of `block`. */
  predicate InAnticoneOf(t: DagTraversalManager, block: Hash, x: Hash) {
    !t.isDagAncestorOf(x, block) && !t.isDagAncestorOf(block, x)
  }

  /** A path the walk can follow: it starts at a tip, each block after the first is a parent of
      the one before it, and no block on it is an ancestor of `block`. */
  ghost predicate IsWalkPath(t: DagTraversalManager, block: Hash, tips: seq<Hash>, path: seq<Hash>) {
    && |path| > 0 && path[0] in tips
    && (forall i | 0 <= i < |path| :: !t.isDagAncestorOf(path[i], block))
    && (forall i | 0 <= i < |path| - 1 :: path[i] in t.parents && path[i + 1] in t.parents[path[i]])
  }

  /** `x` is reached from the tips down parent links without entering the past of `block`:
      the blocks of past(tips) \ past(block) that the walk counts. */
  ghost predicate Reached(t: DagTraversalManager, block: Hash, tips: seq<Hash>, x: Hash) {
    exists path | IsWalkPath(t, block, tips, path) :: path[|path| - 1] == x
  }

  /** The relations store knows the parents of every reached block, the blocks whose
      `get_parents(..).unwrap()` the walk may call. */
  ghost predicate RelationsCover(t: DagTraversalManager, block: Hash, tips: seq<Hash>) {
    forall x | Reached(t, block, tips, x) :: x in t.parents
  }

  /** The blocks the walk can ever queue: the tips and every block listed as a parent. */
  ghost function WalkDomain(t: DagTraversalManager, tips: seq<Hash>): set<Hash> {
    (set x | x in tips) + (set h, p | h in t.parents && p in t.parents[h] :: p)
  }

  /** All blocks the walk is to count. */
  ghost function ReachedSet(t: DagTraversalManager, block: Hash, tips: seq<Hash>): set<Hash> {
    set x | x in t.parents && Reached(t, block, tips, x)
  }

  /** A queued block is a tip or a parent of a reached block. */
  ghost predicate Pending(t: DagTraversalManager, block: Hash, tips: seq<Hash>, q: Hash) {
    q in tips || exists x | x in t.parents && q in t.parents[x] :: Reached(t, block, tips, x)
  }

  /** The visited blocks outside the past of `block`: those the walk has counted. */
  ghost function Counted(t: DagTraversalManager, block: Hash, visited: set<Hash>): set<Hash> {
    set x | x in visited && !t.isDagAncestorOf(x, block)
  }

  /** The counter is the number of counted blocks, each counted block is reached, and so is
      every queued block outside the past of `block`. */
  ghost predicate WalkAccounts(t: DagTraversalManager, block: Hash, tips: seq<Hash>,
                               visited: set<Hash>, queue: seq<Hash>, traversalCount: nat) {
    && traversalCount == |Counted(t, block, visited)|
    && (forall x | x in Counted(t, block, visited) :: Reached(t, block, tips, x))
    && (forall q | q in queue :: Pending(t, block, tips, q))
  }

  /** A pending block outside the past of `block` is reached. */
  lemma PendingReached(t: DagTraversalManager, block: Hash, tips: seq<Hash>, q: Hash)
    requires Pending(t, block, tips, q) && !t.isDagAncestorOf(q, block)
    ensures Reached(t, block, tips, q)
  {
    if q in tips {
      assert IsWalkPath(t, block, tips, [q]);
    } else {
      var x :| x in t.parents && q in t.parents[x] && Reached(t, block, tips, x);
      var path :| IsWalkPath(t, block, tips, path) && path[|path| - 1] == x;
      var longer := path + [q];
      assert longer[|path| - 1] == x && longer[|path|] == q;
      assert IsWalkPath(t, block, tips, longer);
    }
  }

  lemma SubsetCard(a: set<Hash>, b: set<Hash>)
    requires a <= b
    ensures |a| <= |b|
  {
    assert b == a + (b - a);
  }

  /** Once the queue is empty, every block of a walk path has been visited. */
  lemma {:induction false} WalkPathVisited(t: DagTraversalManager, block: Hash, tips: seq<Hash>,
                                           visited: set<Hash>, path: seq<Hash>, i: nat)
    requires IsWalkPath(t, block, tips, path) && i < |path|
    requires forall x | x in tips :: x in visited
    requires ParentsCovered(t, block, visited, [])
    ensures path[i] in visited
    decreases i
  {
    if i > 0 {
      WalkPathVisited(t, block, tips, visited, path, i - 1);
      assert path[i] in t.parents[path[i - 1]];
    }
  }

  /** Every visited block outside the past of `block` has each of its parents visited or
      queued. */
  ghost predicate ParentsCovered(t: DagTraversalManager, block: Hash, visited: set<Hash>, queue: seq<Hash>) {
    forall x, p | x in visited && x in t.parents && !t.isDagAncestorOf(x, block) && p in t.parents[x] ::
      p in visited || p in queue
  }

  /** Processing the head of the queue keeps the parents of visited blocks covered. */
  lemma ParentsCoveredStep(t: DagTraversalManager, block: Hash, visited: set<Hash>, current: Hash, rest: seq<Hash>, queue: seq<Hash>)
    requires ParentsCovered(t, block, visited, [current] + rest)
    requires forall q | q in rest :: q in queue
    requires current !in visited && current in t.parents && !t.isDagAncestorOf(current, block) ==>
      forall p | p in t.parents[current] :: p in queue
    ensures ParentsCovered(t, block, visited + {current}, queue)
  {
  }

  /** The output holds, without repetition, exactly the visited blocks of the anticone. */
  ghost predicate Emitted(t: DagTraversalManager, block: Hash, visited: set<Hash>, anticone: seq<Hash>) {
    && (forall i, j | 0 <= i < j < |anticone| :: anticone[i] != anticone[j])
    && (forall x | x in anticone :: x in visited && InAnticoneOf(t, block, x))
    && (forall x | x in visited && InAnticoneOf(t, block, x) :: x in anticone)
  }

  /** Visiting a new block appends it to the output exactly when it is in the anticone. */
  lemma EmittedStep(t: DagTraversalManager, block: Hash, visited: set<Hash>, anticone: seq<Hash>, current: Hash)
    requires Emitted(t, block, visited, anticone) && current !in visited
    ensures InAnticoneOf(t, block, current) ==> Emitted(t, block, visited + {current}, anticone + [current])
    ensures !InAnticoneOf(t, block, current) ==> Emitted(t, block, visited + {current}, anticone)
  {
  }

  /** The invariant of the walk in `anticone`. */
  ghost predicate WalkInvariant(t: DagTraversalManager, block: Hash, tips: seq<Hash>, maxTraversalAllowed: Option<u64>,
                                visited: set<Hash>, queue: seq<Hash>, anticone: seq<Hash>, traversalCount: nat)
  {
    && visited <= WalkDomain(t, tips) && (forall q | q in queue :: q in WalkDomain(t, tips))
    && Emitted(t, block, visited, anticone)
    && (forall x | x in tips :: x in visited || x in queue)
    && ParentsCovered(t, block, visited, queue)
    && WalkAccounts(t, block, tips, visited, queue, traversalCount)
    && |anticone| <= traversalCount
    && (maxTraversalAllowed.Some? ==> traversalCount <= maxTraversalAllowed.value)
  }

  /** Popping a block that was already visited, or that is an ancestor of `block`, marks it
      visited and changes nothing else. */
  lemma WalkSkip(t: DagTraversalManager, block: Hash, tips: seq<Hash>, maxTraversalAllowed: Option<u64>,
                 visited: set<Hash>, current: Hash, queue: seq<Hash>, anticone: seq<Hash>, traversalCount: nat)
    requires WalkInvariant(t, block, tips, maxTraversalAllowed, visited, [current] + queue, anticone, traversalCount)
    requires current in visited || t.isDagAncestorOf(current, block)
    ensures WalkInvariant(t, block, tips, maxTraversalAllowed, visited + {current}, queue, anticone, traversalCount)
  {
    assert current in [current] + queue;
    ParentsCoveredStep(t, block, visited, current, queue, queue);
    assert Counted(t, block, visited + {current}) == Counted(t, block, visited);
    if current !in visited {
      EmittedStep(t, block, visited, anticone, current);
    } else {
      assert visited + {current} == visited;
    }
  }

  /** Processing a new block outside the past of `block`, within the traversal budget,
      queues its parents and emits it when it is in the anticone. */
  lemma WalkVisit(t: DagTraversalManager, block: Hash, tips: seq<Hash>, maxTraversalAllowed: Option<u64>,
                  visited: set<Hash>, current: Hash, queue: seq<Hash>, anticone: seq<Hash>, traversalCount: nat)
    requires RelationsCover(t, block, tips)
    requires WalkInvariant(t, block, tips, maxTraversalAllowed, visited, [current] + queue, anticone, traversalCount)
    requires current !in visited && !t.isDagAncestorOf(current, block)
    requires maxTraversalAllowed.Some? ==> traversalCount + 1 <= maxTraversalAllowed.value
    ensures current in t.parents
    ensures WalkInvariant(t, block, tips, maxTraversalAllowed, visited + {current}, queue + t.parents[current],
                          if t.isDagAncestorOf(block, current) then anticone else anticone + [current], traversalCount + 1)
  {
    assert current in [current] + queue;
    PendingReached(t, block, tips, current);
    forall p | p in t.parents[current] ensures p in WalkDomain(t, tips) {
      assert current in t.parents && p in t.parents[current];
    }
    ParentsCoveredStep(t, block, visited, current, queue, queue + t.parents[current]);
    EmittedStep(t, block, visited, anticone, current);
    WalkCounts(t, block, tips, visited, current, queue, traversalCount);
  }

  /** The accounting part of `WalkVisit`: the new block is reached and counted once, and its
      parents become pending. */
  lemma WalkCounts(t: DagTraversalManager, block: Hash, tips: seq<Hash>,
                   visited: set<Hash>, current: Hash, queue: seq<Hash>, traversalCount: nat)
    requires WalkAccounts(t, block, tips, visited, [current] + queue, traversalCount)
    requires current in t.parents && current !in visited && !t.isDagAncestorOf(current, block)
    ensures Reached(t, block, tips, current)
    ensures WalkAccounts(t, block, tips, visited + {current}, queue + t.parents[current], traversalCount + 1)
  {
    assert current in [current] + queue;
    PendingReached(t, block, tips, current);
    assert Counted(t, block, visited + {current}) == Counted(t, block, visited) + {current};
    forall q | q in queue + t.parents[current] ensures Pending(t, block, tips, q) {
      if q !in queue {
        assert q in t.parents[current];
      } else {
        assert q in [current] + queue;
      }
    }
  }

  /** Running out of budget on a new block outside the past of `block` means more than the
      budget of blocks is reachable. */
  lemma WalkExceeds(t: DagTraversalManager, block: Hash, tips: seq<Hash>, maxTraversalAllowed: Option<u64>,
                    visited: set<Hash>, current: Hash, queue: seq<Hash>, anticone: seq<Hash>, traversalCount: nat)
    requires RelationsCover(t, block, tips)
    requires WalkInvariant(t, block, tips, maxTraversalAllowed, visited, [current] + queue, anticone, traversalCount)
    requires current !in visited && !t.isDagAncestorOf(current, block)
    ensures |ReachedSet(t, block, tips)| >= traversalCount + 1
  {
    assert current in [current] + queue;
    PendingReached(t, block, tips, current);
    WalkCounts(t, block, tips, visited, current, queue, traversalCount);
    var counted := Counted(t, block, visited + {current});
    assert counted == Counted(t, block, visited) + {current};
    SubsetCard(counted, ReachedSet(t, block, tips));
  }

  /** Nothing is reached exactly when every tip is an ancestor of `block`. */
  lemma NothingReachedIffTipsInPast(t: DagTraversalManager, block: Hash, tips: seq<Hash>)
    requires RelationsCover(t, block, tips)
    ensures ReachedSet(t, block, tips) == {} <==> forall x | x in tips :: t.isDagAncestorOf(x, block)
  {
    if x :| x in ReachedSet(t, block, tips) {
      var path :| IsWalkPath(t, block, tips, path) && path[|path| - 1] == x;
      assert path[0] in tips && !t.isDagAncestorOf(path[0], block);
    }
    if x :| x in tips && !t.isDagAncestorOf(x, block) {
      assert IsWalkPath(t, block, tips, [x]);
      assert x in ReachedSet(t, block, tips);
    }
  }

  /** When the queue runs dry the visited blocks outside the past of `block` are exactly the
      reached ones, so the output is the reached part of the anticone and the counter is the
      number of reached blocks. */
  lemma WalkFinished(t: DagTraversalManager, block: Hash, tips: seq<Hash>, maxTraversalAllowed: Option<u64>,
                     visited: set<Hash>, anticone: seq<Hash>, traversalCount: nat)
    requires RelationsCover(t, block, tips)
    requires WalkInvariant(t, block, tips, maxTraversalAllowed, visited, [], anticone, traversalCount)
    ensures forall i, j | 0 <= i < j < |anticone| :: anticone[i] != anticone[j]
    ensures forall x :: x in anticone <==> Reached(t, block, tips, x) && InAnticoneOf(t, block, x)
    ensures traversalCount == |ReachedSet(t, block, tips)|
    ensures forall x | x in anticone :: x in t.parents
    ensures maxTraversalAllowed.Some? ==> |anticone| <= maxTraversalAllowed.value
    ensures maxTraversalAllowed == Some(0) ==>
      (forall x | x in tips :: t.isDagAncestorOf(x, block)) && anticone == []
  {
    NothingReachedIffTipsInPast(t, block, tips);
    forall x | Reached(t, block, tips, x) ensures x in visited && !t.isDagAncestorOf(x, block) {
      var path :| IsWalkPath(t, block, tips, path) && path[|path| - 1] == x;
      WalkPathVisited(t, block, tips, visited, path, |path| - 1);
    }
    assert ReachedSet(t, block, tips) == Counted(t, block, visited);
  }

  /** One round of the walk in `anticone`: pop the head of the queue and process it. The
      result `exceeded` reports that the traversal budget ran out. */
  method WalkStep(t: DagTraversalManager, block: Hash, tips: seq<Hash>, maxTraversalAllowed: Option<u64>,
                  visited: set<Hash>, queue: seq<Hash>, anticone: seq<Hash>, traversalCount: nat)
    returns (visited': set<Hash>, queue': seq<Hash>, anticone': seq<Hash>, traversalCount': nat, exceeded: bool)
    requires RelationsCover(t, block, tips) && |queue| > 0
    requires WalkInvariant(t, block, tips, maxTraversalAllowed, visited, queue, anticone, traversalCount)
    ensures exceeded ==> maxTraversalAllowed.Some? && traversalCount' == maxTraversalAllowed.value + 1
    ensures exceeded ==> |ReachedSet(t, block, tips)| >= traversalCount'
    ensures !exceeded ==>
      WalkInvariant(t, block, tips, maxTraversalAllowed, visited', queue', anticone', traversalCount')
    ensures !exceeded ==>
      (|WalkDomain(t, tips) - visited'| < |WalkDomain(t, tips) - visited| || (visited' == visited && |queue'| < |queue|))
  {
    var current := queue[0];
    assert queue == [current] + queue[1..];
    queue' := queue[1..];
    visited', anticone', traversalCount', exceeded := visited, anticone, traversalCount, false;
    if current in visited {
      WalkSkip(t, block, tips, maxTraversalAllowed, visited, current, queue', anticone, traversalCount);
      assert visited + {current} == visited;
      return;
    }
    assert current in WalkDomain(t, tips);
    assert WalkDomain(t, tips) - (visited + {current}) < WalkDomain(t, tips) - visited;
    if t.isDagAncestorOf(current, block) {
      WalkSkip(t, block, tips, maxTraversalAllowed, visited, current, queue', anticone, traversalCount);
      visited' := visited + {current};
      return;
    }
    traversalCount' := traversalCount + 1;
    if maxTraversalAllowed.Some? && traversalCount' > maxTraversalAllowed.value {
      WalkExceeds(t, block, tips, maxTraversalAllowed, visited, current, queue', anticone, traversalCount);
      exceeded := true;
      return;
    }
    WalkVisit(t, block, tips, maxTraversalAllowed, visited, current, queue', anticone, traversalCount);
    visited' := visited + {current};
    if !t.isDagAncestorOf(block, current) {
      anticone' := anticone + [current];
    }
    queue' := queue' + t.parents[current];
  }

  /** `anticone`: a breadth-first walk down the parents from `tips` that skips blocks already
      visited and does not pass through ancestors of `block`, emitting every visited block in
      the anticone of `block`. It gives up once more than `max_traversal_allowed` blocks
      outside the past of `block` were processed. The result is therefore decided by the
      reached blocks alone: the output is the reached part of the anticone, and the error
      comes exactly when more blocks are reached than the budget allows. */
  method Anticone(t: DagTraversalManager, block: Hash, tips: seq<Hash>, maxTraversalAllowed: Option<u64>)
    returns (r: Result<seq<Hash>, TraversalError>)
    requires RelationsCover(t, block, tips)
    ensures r.Ok? ==> forall i, j | 0 <= i < j < |r.value| :: r.value[i] != r.value[j]
    ensures r.Ok? ==> forall x :: x in r.value <==> Reached(t, block, tips, x) && InAnticoneOf(t, block, x)
    ensures r.Ok? ==> forall x | x in r.value :: x in t.parents
    ensures r.Err? <==> maxTraversalAllowed.Some? && |ReachedSet(t, block, tips)| > maxTraversalAllowed.value
    ensures r.Ok? && maxTraversalAllowed.Some? ==> |r.value| <= maxTraversalAllowed.value
    ensures r.Err? ==>
      maxTraversalAllowed.Some? && r.error == ReachedMaxTraversalAllowed(maxTraversalAllowed.value + 1, maxTraversalAllowed.value)
    ensures maxTraversalAllowed == Some(0) ==> (r.Ok? <==> forall x | x in tips :: t.isDagAncestorOf(x, block))
    ensures maxTraversalAllowed == Some(0) && r.Ok? ==> r.value == []
  {
    var anticone: seq<Hash> := [];
    var queue := tips;
    var visited: set<Hash> := {};
    var traversalCount: nat := 0;
    assert Counted(t, block, visited) == {};
    while |queue| > 0
      invariant WalkInvariant(t, block, tips, maxTraversalAllowed, visited, queue, anticone, traversalCount)
      decreases |WalkDomain(t, tips) - visited|, |queue|
    {
      var exceeded;
      visited, queue, anticone, traversalCount, exceeded :=
        WalkStep(t, block, tips, maxTraversalAllowed, visited, queue, anticone, traversalCount);
      if exceeded {
        NothingReachedIffTipsInPast(t, block, tips);
        return Err(ReachedMaxTraversalAllowed(traversalCount, maxTraversalAllowed.value));
      }
    }
    WalkFinished(t, block, tips, maxTraversalAllowed, visited, anticone, traversalCount);
    NothingReachedIffTipsInPast(t, block, tips);
    r := Ok(anticone);
  }

  /** Only reached blocks need relations: a tip in the past of `block` is skipped before its
      parents are read, so a store without any relations admits the walk from it. */
  lemma TipInPastNeedsNoRelations(t: DagTraversalManager)
    requires t.parents == map[] && t.isDagAncestorOf(1, 2)
    ensures RelationsCover(t, 2, [1]) && 1 !in t.parents
    ensures ReachedSet(t, 2, [1]) == {}
  {
  }

  /** A block of the anticone reached only through a tip that descends from `block`: with
      block 1 an ancestor of tip 2, whose parents are 1 and 3, the walk reaches 2 and 3 and
      not 1, and `Anticone` outputs 3 but not the descendant 2. */
  lemma AnticoneThroughDescendant(t: DagTraversalManager)
    requires t.parents == map[1 := [], 2 := [1, 3], 3 := []]
    requires forall a, b :: t.isDagAncestorOf(a, b) <==> a == b || (a == 1 && b == 2)
    ensures Reached(t, 1, [2], 3) && InAnticoneOf(t, 1, 3)
    ensures !InAnticoneOf(t, 1, 2)
    ensures ReachedSet(t, 1, [2]) == {2, 3}
  {
    assert IsWalkPath(t, 1, [2], [2]);
    assert IsWalkPath(t, 1, [2], [2, 3]);
  }

  // ---------------------------------------------------------------------------------------
  // Lowest chain block above a blue score
  // ---------------------------------------------------------------------------------------

  /** What the climb from `h` reads is in the store: `h` is known and, unless it is genesis or
      `ORIGIN`, its selected parent is known with a strictly smaller blue score and admits the
      climb in turn. Only the selected chain of `h` is constrained, and it may end at `ORIGIN`,
      whose own entry need not lead on. */
  ghost predicate ClimbsFrom(t: DagTraversalManager, h: Hash)
    decreases if h in t.ghostdag then BlueScore(t, h) + 1 else 0
  {
    && h in t.ghostdag
    && (|| h == t.genesisHash
        || h == t.origin
        || (&& SelectedParent(t, h) in t.ghostdag
            && BlueScore(t, SelectedParent(t, h)) < BlueScore(t, h)
            && ClimbsFrom(t, SelectedParent(t, h))))
  }

  /** In a store whose chains all end at genesis the climb can start from any known block. */
  lemma {:induction false} WfAdmitsClimb(t: DagTraversalManager, h: Hash)
    requires Wf(t) && h in t.ghostdag
    ensures ClimbsFrom(t, h)
    decreases BlueScore(t, h)
  {
    if h != t.genesisHash && h != t.origin {
      WfAdmitsClimb(t, SelectedParent(t, h));
    }
  }

  /** The selected chain of `h` down to the first of genesis and `ORIGIN`. */
  function ClimbChain(t: DagTraversalManager, h: Hash): (c: seq<Hash>)
    requires ClimbsFrom(t, h)
    ensures |c| > 0 && c[0] == h && (c[|c| - 1] == t.genesisHash || c[|c| - 1] == t.origin)
    ensures forall x | x in c :: x in t.ghostdag && BlueScore(t, x) <= BlueScore(t, h) && ClimbsFrom(t, x)
    decreases BlueScore(t, h)
  {
    if h == t.genesisHash || h == t.origin then [h]
    else [h] + ClimbChain(t, SelectedParent(t, h))
  }

  /** A block of the climb chain is followed by its selected parent exactly when it is neither
      genesis nor `ORIGIN`. */
  lemma {:induction false} ClimbSteps(t: DagTraversalManager, h: Hash, i: nat)
    requires ClimbsFrom(t, h) && i < |ClimbChain(t, h)|
    ensures i + 1 < |ClimbChain(t, h)| <==> ClimbChain(t, h)[i] != t.genesisHash && ClimbChain(t, h)[i] != t.origin
    ensures i + 1 < |ClimbChain(t, h)| ==> ClimbChain(t, h)[i + 1] == SelectedParent(t, ClimbChain(t, h)[i])
    decreases i
  {
    if i > 0 {
      ClimbSteps(t, SelectedParent(t, h), i - 1);
    }
  }

  /** The climb chain below any of its blocks is that block's own climb chain. */
  lemma {:induction false} ClimbSuffix(t: DagTraversalManager, h: Hash, p: nat)
    requires ClimbsFrom(t, h) && p < |ClimbChain(t, h)|
    ensures ClimbChain(t, h)[p..] == ClimbChain(t, ClimbChain(t, h)[p])
    decreases p
  {
    if p > 0 {
      var c := ClimbChain(t, h);
      var rest := ClimbChain(t, SelectedParent(t, h));
      assert c[1..] == rest;
      ClimbSuffix(t, SelectedParent(t, h), p - 1);
      assert c[p..] == rest[p - 1..];
    }
  }

  /** `b` is the lowest block on the chain of `high` whose blue score is at least `blueScore`:
      it is genesis, or it is not `ORIGIN` and its selected parent is below the score. */
  ghost predicate IsLowestChainBlockAbove(t: DagTraversalManager, high: Hash, blueScore: nat, b: Hash)
    requires ClimbsFrom(t, high)
  {
    && b in ClimbChain(t, high)
    && BlueScore(t, b) >= blueScore
    && (b == t.genesisHash || (b != t.origin && BlueScore(t, SelectedParent(t, b)) < blueScore))
  }

  /** The walk from `high` meets `ORIGIN` before stopping. */
  ghost predicate MeetsOrigin(t: DagTraversalManager, high: Hash, blueScore: nat)
    requires ClimbsFrom(t, high)
  {
    t.origin != t.genesisHash && t.origin in ClimbChain(t, high) && BlueScore(t, t.origin) >= blueScore
  }

  /** Blue scores strictly decrease down a chain. */
  lemma ScoresDecrease(t: DagTraversalManager, high: Hash, i: nat, j: nat)
    requires ClimbsFrom(t, high) && i < j < |ClimbChain(t, high)|
    ensures BlueScore(t, ClimbChain(t, high)[j]) < BlueScore(t, ClimbChain(t, high)[i])
  {
    var c := ClimbChain(t, high);
    ClimbSteps(t, high, i);
    ClimbSuffix(t, high, i + 1);
    assert c[j] in c[i + 1..];
  }

  /** The walk stopped at position `k` of the chain of `high`: the block there is at or above
      the score, and it is genesis or `ORIGIN`, or its selected parent is below. */
  ghost predicate StopsAt(t: DagTraversalManager, high: Hash, blueScore: nat, k: nat)
    requires ClimbsFrom(t, high)
  {
    var c := ClimbChain(t, high);
    && k < |c|
    && BlueScore(t, c[k]) >= blueScore
    && (c[k] == t.genesisHash || c[k] == t.origin || BlueScore(t, SelectedParent(t, c[k])) < blueScore)
  }

  /** Past the stop every chain block is below the score. */
  lemma BelowStop(t: DagTraversalManager, high: Hash, blueScore: nat, k: nat, j: nat)
    requires ClimbsFrom(t, high) && StopsAt(t, high, blueScore, k)
    requires k < j < |ClimbChain(t, high)|
    ensures BlueScore(t, ClimbChain(t, high)[j]) < blueScore
  {
    if k + 1 < j {
      ScoresDecrease(t, high, k + 1, j);
    }
    ClimbSteps(t, high, k);
  }

  /** A lowest chain block above the score sits where the walk stops. */
  lemma StopIsUniqueLowest(t: DagTraversalManager, high: Hash, blueScore: nat, k: nat, b: Hash)
    requires ClimbsFrom(t, high) && StopsAt(t, high, blueScore, k)
    requires IsLowestChainBlockAbove(t, high, blueScore, b)
    ensures b == ClimbChain(t, high)[k]
  {
    var c := ClimbChain(t, high);
    var p := IndexOf(c, b);
    if p < k {
      ClimbSteps(t, high, p);
      if p + 1 < k {
        ScoresDecrease(t, high, p + 1, k);
      }
    } else if p > k {
      BelowStop(t, high, blueScore, k, p);
    }
  }

  /** The walk meets `ORIGIN` exactly when it is one of the blocks down to the stop. */
  lemma OriginBeforeStop(t: DagTraversalManager, high: Hash, blueScore: nat, k: nat)
    requires ClimbsFrom(t, high) && StopsAt(t, high, blueScore, k)
    ensures MeetsOrigin(t, high, blueScore) <==>
      t.origin != t.genesisHash && t.origin in ClimbChain(t, high)[..k + 1]
  {
    var c := ClimbChain(t, high);
    if t.origin in c {
      var p := IndexOf(c, t.origin);
      if p > k {
        BelowStop(t, high, blueScore, k, p);
      } else if p < k {
        ScoresDecrease(t, high, p, k);
      }
      assert p <= k ==> c[..k + 1][p] == t.origin;
    }
  }

  /** `lowest_chain_block_above_or_equal_to_blue_score`: climb down the selected chain from
      `high` while the selected parent still has at least `blue_score`. The call aborts when
      `high` is below the score (an `assert!`) and when the walk meets `ORIGIN`. */
  method LowestChainBlockAboveOrEqualToBlueScore(t: DagTraversalManager, high: Hash, blueScore: u64) returns (r: Checked<Hash>)
    requires ClimbsFrom(t, high)
    ensures r.Panic? <==> BlueScore(t, high) < blueScore || MeetsOrigin(t, high, blueScore)
    ensures r.Done? ==> IsLowestChainBlockAbove(t, high, blueScore, r.value)
    ensures r.Done? ==> forall b | IsLowestChainBlockAbove(t, high, blueScore, b) :: b == r.value
    ensures BlueScore(t, high) == blueScore && !MeetsOrigin(t, high, blueScore) ==> r == Done(high)
  {
    if BlueScore(t, high) < blueScore {
      return Panic;
    }
    ghost var c := ClimbChain(t, high);
    var current := high;
    ghost var k: nat := 0;
    while current != t.genesisHash
      invariant k < |c| && current == c[k]
      invariant BlueScore(t, current) >= blueScore
      invariant t.origin !in c[..k]
      decreases |c| - k
    {
      if current == t.origin {
        assert c[k] in c;
        return Panic;  // "there's no such known block"
      }
      ClimbSteps(t, high, k);
      var selectedParent := SelectedParent(t, current);
      if BlueScore(t, selectedParent) < blueScore {
        break;
      }
      PrefixExtend(c, k);
      current := selectedParent;
      k := k + 1;
    }
    assert StopsAt(t, high, blueScore, k);
    OriginBeforeStop(t, high, blueScore, k);
    PrefixExtend(c, k);
    forall b | IsLowestChainBlockAbove(t, high, blueScore, b) ensures b == current {
      StopIsUniqueLowest(t, high, blueScore, k, b);
    }
    r := Done(current);
  }

  /** A chain that bottoms out at `ORIGIN`: `high` (blue score 5) has `ORIGIN` (blue score 0)
      as its selected parent, and `ORIGIN` has no known selected parent. For blue score 1 the
      climb stops at `high` without meeting `ORIGIN`. */
  lemma ClimbEndingAtOrigin(t: DagTraversalManager, high: Hash)
    requires t.genesisHash != t.origin && high != t.genesisHash && high != t.origin
    requires t.ghostdag == map[t.genesisHash := GhostdagCompact(0, t.genesisHash),
                               t.origin := GhostdagCompact(0, t.origin),
                               high := GhostdagCompact(5, t.origin)]
    ensures ClimbsFrom(t, high) && !Wf(t)
    ensures ClimbChain(t, high) == [high, t.origin]
    ensures !MeetsOrigin(t, high, 1) && IsLowestChainBlockAbove(t, high, 1, high)
  {
    assert SelectedParent(t, t.origin) == t.origin;
  }

  /** The climb reads only the chain of `high`: a store holding another block whose selected
      parent is unknown still admits the climb from `high`, whose chain leads to genesis. */
  lemma ClimbReadsOnlyItsChain(t: DagTraversalManager, high: Hash, stray: Hash, missing: Hash)
    requires t.genesisHash != t.origin && high != t.genesisHash && high != t.origin
    requires stray != t.genesisHash && stray != t.origin && stray != high
    requires missing != t.genesisHash && missing != high && missing != stray
    requires t.ghostdag == map[t.genesisHash := GhostdagCompact(0, t.genesisHash),
                               high := GhostdagCompact(5, t.genesisHash),
                               stray := GhostdagCompact(3, missing)]
    ensures ClimbsFrom(t, high) && !Wf(t)
    ensures ClimbChain(t, high) == [high, t.genesisHash]
  {
    assert SelectedParent(t, stray) == missing;
  }

  // ---------------------------------------------------------------------------------------
  // Size-bounded block heap
  // ---------------------------------------------------------------------------------------

  /** The first occurrence of `x` removed from `s`. */
  function RemoveOne(s: seq<SortableBlock>, x: SortableBlock): (r: seq<SortableBlock>)
    requires x in s
    ensures multiset(r) == multiset(s) - multiset{x} && |r| == |s| - 1
  {
    assert s == [s[0]] + s[1..];
    if s[0] == x then s[1..] else [s[0]] + RemoveOne(s[1..], x)
  }

  /** `BoundedSizeBlockHeap`: a binary heap of `Reverse<SortableBlock>` with a size bound. Its
      top is the least block, the one evicted first, so a full heap keeps the greatest blocks
      pushed into it. Only the multiset of `blocks` is meaningful; their order stands for
      the heap's internal layout. */
  class BoundedSizeBlockHeap {
    var blocks: seq<SortableBlock>
    const sizeBound: nat

    /** `new`: an empty heap. */
    constructor (sizeBound: nat)
      ensures this.sizeBound == sizeBound && blocks == []
    {
      this.sizeBound := sizeBound;
      blocks := [];
    }

    /** `from_binary_heap`: a heap around existing contents, whatever their size. */
    constructor FromBinaryHeap(sizeBound: nat, binaryHeap: seq<SortableBlock>)
      ensures this.sizeBound == sizeBound && blocks == binaryHeap
    {
      this.sizeBound := sizeBound;
      blocks := binaryHeap;
    }

    /** `reached_size_bound`: the length equals the bound exactly. */
    function ReachedSizeBound(): (r: bool)
      reads this
      ensures r <==> |blocks| == sizeBound
    {
      |blocks| == sizeBound
    }

    /** `peek`: the top of the `Reverse` heap, its least block. */
    function Peek(): (r: Option<SortableBlock>)
      reads this
      ensures r.None? <==> blocks == []
      ensures r.Some? ==> r.value in blocks && forall x | x in blocks :: !Less(x, r.value)
    {
      if blocks == [] then None else Some(MinBlock(blocks))
    }

    /** `try_push`: push while below the bound; once full, refuse a block below the least
      one, and otherwise evict the least block to make room. */
    method TryPush(hash: Hash, blueWork: nat) returns (pushed: bool)
      modifies this
      ensures var candidate := SortableBlock(hash, blueWork);
        !pushed <==> old(ReachedSizeBound()) && old(blocks) != [] && Less(candidate, MinBlock(old(blocks)))
      ensures !pushed ==> blocks == old(blocks)
      ensures pushed && !old(ReachedSizeBound()) ==>
        multiset(blocks) == multiset(old(blocks)) + multiset{SortableBlock(hash, blueWork)}
      ensures pushed && old(ReachedSizeBound()) && old(blocks) != [] ==>
        multiset(blocks) == multiset(old(blocks)) - multiset{MinBlock(old(blocks))} + multiset{SortableBlock(hash, blueWork)}
      ensures pushed && old(ReachedSizeBound()) && old(blocks) == [] ==> blocks == [SortableBlock(hash, blueWork)]
      ensures sizeBound >= 1 && old(|blocks|) <= sizeBound ==> |blocks| <= sizeBound
      ensures pushed && old(ReachedSizeBound()) && old(blocks) != [] ==>
        forall x | x in blocks :: !Less(x, MinBlock(old(blocks)))
    {
      var candidate := SortableBlock(hash, blueWork);
      if ReachedSizeBound() {
        var top := Peek();
        if top.Some? && Less(candidate, top.value) {
          return false;  // full, and the candidate is below every block kept
        }
        if top.Some? {
          blocks := RemoveOne(blocks, top.value);  // evict the least block
        }
      }
      blocks := blocks + [candidate];
      pushed := true;
      assert forall x | x in blocks :: x in multiset(blocks);
    }
  }
}
