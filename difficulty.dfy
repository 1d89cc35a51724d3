/** The difficulty manager: DAA score of a block and its non-DAA mergeset blocks, the next
    difficulty target, the network hashrate estimate and the work of a target
    (consensus/src/processes/difficulty.rs). */
module Difficulty {
  import opened Common
  import opened Ordering
  import opened Arithmetic

  // ---------------------------------------------------------------------------------------
  // External interfaces
  // ---------------------------------------------------------------------------------------

  /** The header fields the difficulty manager reads. */
  datatype CompactHeaderData = CompactHeaderData(timestamp: u64, bits: u32)

  /** Read view of the header store: compact header data and DAA scores by hash. */
  datatype HeaderStore = HeaderStore(compactData: map<Hash, CompactHeaderData>, daaScores: map<Hash, u64>)

  /** The compact difficulty-bits encoding of the wide-integer library, taken as given:
      `fromCompact` is `Uint256::from_compact_target_bits`, `toCompact` is
      `Uint256::compact_target_bits`. */
  datatype CompactCodec = CompactCodec(fromCompact: u32 -> nat, toCompact: nat -> u32)

  /** Every decoded target is a 256-bit value. */
  ghost predicate ValidCodec(codec: CompactCodec) {
    forall bits: u32 :: codec.fromCompact(bits) < TWO_256
  }

  /** The GHOSTDAG data of the block being scored: its selected parent and its mergeset,
      which holds the selected parent as its first blue. */
  datatype GhostdagData = GhostdagData(selectedParent: Hash, mergesetBlues: seq<Hash>, mergesetReds: seq<Hash>)
  {
    function MergesetSize(): nat { |mergesetBlues| + |mergesetReds| }
  }

  /** The immutable configuration of a `DifficultyManager`. */
  datatype DifficultyManager = DifficultyManager(
    genesisBits: u32,
    difficultyAdjustmentWindowSize: nat,
    targetTimePerBlock: u64)

  // ---------------------------------------------------------------------------------------
  // DAA score and the non-DAA part of the mergeset
  // ---------------------------------------------------------------------------------------

  /** The longest prefix of `s` whose elements are all strictly below `bound` (`take_while`). */
  function TakeWhileBelow(s: seq<SortableBlock>, bound: SortableBlock): (r: seq<SortableBlock>)
    ensures |r| <= |s| && r == s[..|r|]
    ensures forall x | x in r :: Less(x, bound)
    ensures |r| < |s| ==> !Less(s[|r|], bound)
  {
    if s == [] || !Less(s[0], bound) then []
    else [s[0]] + TakeWhileBelow(s[1..], bound)
  }

  function HashesOf(s: seq<SortableBlock>): set<Hash> {
    set x | x in s :: x.hash
  }

  lemma {:induction false} HashesOfSize(s: seq<SortableBlock>)
    ensures |HashesOf(s)| <= |s|
  {
    if s != [] {
      HashesOfSize(s[1..]);
      assert HashesOf(s) == {s[0].hash} + HashesOf(s[1..]);
    }
  }

  /** The block the window compares against: its least block, or, for an empty window, a
      sentinel with the zero hash and the greatest blue work. */
  function WindowLowestBlock(window: seq<SortableBlock>): (lowest: SortableBlock)
    ensures window != [] ==> lowest in window && forall x | x in window :: !Less(x, lowest)
    ensures window == [] ==> forall b: SortableBlock | b.blueWork < BLUE_WORK_MAX :: Less(b, lowest)
  {
    if window == [] then SortableBlock(ZERO_HASH, BLUE_WORK_MAX) else MinBlock(window)
  }

  /** The hashes of `s`, in order. */
  function HashSeq(s: seq<SortableBlock>): (r: seq<Hash>)
    ensures |r| == |s| && forall i | 0 <= i < |s| :: r[i] == s[i].hash
  {
    if s == [] then [] else [s[0].hash] + HashSeq(s[1..])
  }

  /** What `ascending_mergeset_without_selected_parent` yields: the mergeset without its first
      blue (the selected parent), as sortable blocks. */
  ghost predicate IsAscendingMergeset(gd: GhostdagData, ascending: seq<SortableBlock>) {
    && |gd.mergesetBlues| > 0
    && gd.mergesetBlues[0] == gd.selectedParent
    && multiset(HashSeq(ascending)) == multiset(gd.mergesetBlues[1..] + gd.mergesetReds)
  }

  /** The candidates for the non-DAA set, in the order they are examined: the ascending
      mergeset, then the selected parent with its blue work (0 when the store has none). */
  function NonDaaCandidates(gd: GhostdagData, ascending: seq<SortableBlock>, blueWorks: map<Hash, nat>): seq<SortableBlock> {
    var spWork := if gd.selectedParent in blueWorks then blueWorks[gd.selectedParent] else 0;
    ascending + [SortableBlock(gd.selectedParent, spWork)]
  }

  /** Candidate `i` and every candidate before it are strictly below `lowest`. */
  ghost predicate InBelowPrefix(c: seq<SortableBlock>, lowest: SortableBlock, i: nat)
    requires i < |c|
  {
    forall j | 0 <= j <= i :: Less(c[j], lowest)
  }

  /** `calc_daa_score_and_non_daa_mergeset_blocks`: the block's DAA score and the set of
      mergeset blocks that do not count towards it. */
  function CalcDaaScoreAndNonDaaMergesetBlocks(
    headers: HeaderStore, window: seq<SortableBlock>, gd: GhostdagData,
    ascending: seq<SortableBlock>, blueWorks: map<Hash, nat>): (r: (nat, set<Hash>))
    requires gd.selectedParent in headers.daaScores
    requires IsAscendingMergeset(gd, ascending)
    ensures var spScore := headers.daaScores[gd.selectedParent];
      && r.0 == spScore + gd.MergesetSize() - |r.1|
      && spScore <= r.0 <= spScore + gd.MergesetSize()
    ensures var c := NonDaaCandidates(gd, ascending, blueWorks);
      forall h :: h in r.1 <==>
        exists i | 0 <= i < |c| :: c[i].hash == h && InBelowPrefix(c, WindowLowestBlock(window), i)
    ensures forall h | h in r.1 :: h in gd.mergesetBlues || h in gd.mergesetReds
  {
    var c := NonDaaCandidates(gd, ascending, blueWorks);
    var lowest := WindowLowestBlock(window);
    var prefix := TakeWhileBelow(c, lowest);
    var nonDaa := HashesOf(prefix);
    NonDaaFacts(gd, ascending, blueWorks, lowest);
    (headers.daaScores[gd.selectedParent] + (gd.MergesetSize() - |nonDaa|), nonDaa)
  }

  /** The facts behind the contract of `CalcDaaScoreAndNonDaaMergesetBlocks`. */
  lemma NonDaaFacts(gd: GhostdagData, ascending: seq<SortableBlock>, blueWorks: map<Hash, nat>, lowest: SortableBlock)
    requires IsAscendingMergeset(gd, ascending)
    ensures var c := NonDaaCandidates(gd, ascending, blueWorks);
      var nonDaa := HashesOf(TakeWhileBelow(c, lowest));
      && |nonDaa| <= gd.MergesetSize()
      && (forall h :: h in nonDaa <==> exists i | 0 <= i < |c| :: c[i].hash == h && InBelowPrefix(c, lowest, i))
      && (forall h | h in nonDaa :: h in gd.mergesetBlues || h in gd.mergesetReds)
  {
    var c := NonDaaCandidates(gd, ascending, blueWorks);
    var prefix := TakeWhileBelow(c, lowest);
    assert |HashSeq(ascending)| == |multiset(HashSeq(ascending))| == |gd.mergesetBlues[1..] + gd.mergesetReds|;
    HashesOfSize(prefix);
    NonDaaAreBelowPrefix(c, lowest);
    NonDaaInMergeset(gd, ascending, blueWorks, lowest);
  }

  /** A hash is taken by `take_while` exactly when it belongs to a candidate that, with every
      candidate before it, is below `lowest`. */
  lemma NonDaaAreBelowPrefix(c: seq<SortableBlock>, lowest: SortableBlock)
    ensures var nonDaa := HashesOf(TakeWhileBelow(c, lowest));
      forall h :: h in nonDaa <==> exists i | 0 <= i < |c| :: c[i].hash == h && InBelowPrefix(c, lowest, i)
  {
    var prefix := TakeWhileBelow(c, lowest);
    forall i | 0 <= i < |c|
      ensures InBelowPrefix(c, lowest, i) <==> i < |prefix|
    {
      if i < |prefix| {
        assert forall j | 0 <= j <= i :: c[j] == prefix[j];
      } else {
        assert !Less(c[|prefix|], lowest);
      }
    }
    forall h | h in HashesOf(prefix)
      ensures exists i | 0 <= i < |c| :: c[i].hash == h && InBelowPrefix(c, lowest, i)
    {
      var x :| x in prefix && x.hash == h;
      var i :| 0 <= i < |prefix| && prefix[i] == x;
      assert c[i] == x;
    }
  }

  /** Every non-DAA hash is a mergeset block. */
  lemma NonDaaInMergeset(gd: GhostdagData, ascending: seq<SortableBlock>, blueWorks: map<Hash, nat>, lowest: SortableBlock)
    requires IsAscendingMergeset(gd, ascending)
    ensures forall h | h in HashesOf(TakeWhileBelow(NonDaaCandidates(gd, ascending, blueWorks), lowest)) ::
      h in gd.mergesetBlues || h in gd.mergesetReds
  {
    var c := NonDaaCandidates(gd, ascending, blueWorks);
    var prefix := TakeWhileBelow(c, lowest);
    var hs := HashSeq(ascending);
    forall h | h in HashesOf(prefix)
      ensures h in gd.mergesetBlues || h in gd.mergesetReds
    {
      var x :| x in prefix && x.hash == h;
      var i :| 0 <= i < |prefix| && prefix[i] == x;
      if i < |ascending| {
        assert hs[i] == h;
        assert h in multiset(hs);
        assert h in gd.mergesetBlues[1..] + gd.mergesetReds;
      } else {
        assert h == gd.mergesetBlues[0];
      }
    }
  }

  /** When the first candidate is not below the window's lowest block, the whole mergeset
      counts towards the DAA score. */
  lemma NonDaaEmptyWhenFirstCandidateNotBelow(
    headers: HeaderStore, window: seq<SortableBlock>, gd: GhostdagData,
    ascending: seq<SortableBlock>, blueWorks: map<Hash, nat>)
    requires gd.selectedParent in headers.daaScores
    requires IsAscendingMergeset(gd, ascending)
    requires !Less(NonDaaCandidates(gd, ascending, blueWorks)[0], WindowLowestBlock(window))
    ensures CalcDaaScoreAndNonDaaMergesetBlocks(headers, window, gd, ascending, blueWorks)
      == (headers.daaScores[gd.selectedParent] + gd.MergesetSize(), {})
  {
  }

  /** With an empty window every candidate whose blue work is below the maximum is non-DAA:
      the non-DAA set is then the whole mergeset, and if its hashes are distinct the block's
      DAA score equals its selected parent's. */
  lemma {:induction false} NonDaaEmptyWindow(
    headers: HeaderStore, gd: GhostdagData,
    ascending: seq<SortableBlock>, blueWorks: map<Hash, nat>)
    requires gd.selectedParent in headers.daaScores
    requires IsAscendingMergeset(gd, ascending)
    requires forall x | x in NonDaaCandidates(gd, ascending, blueWorks) :: x.blueWork < BLUE_WORK_MAX
    ensures var r := CalcDaaScoreAndNonDaaMergesetBlocks(headers, [], gd, ascending, blueWorks);
      && r.1 == (set h | h in gd.mergesetBlues + gd.mergesetReds)
      && (|r.1| == gd.MergesetSize() ==> r.0 == headers.daaScores[gd.selectedParent])
  {
    var r := CalcDaaScoreAndNonDaaMergesetBlocks(headers, [], gd, ascending, blueWorks);
    var c := NonDaaCandidates(gd, ascending, blueWorks);
    var lowest := WindowLowestBlock([]);
    var hs := HashSeq(ascending);
    forall i | 0 <= i < |c| ensures InBelowPrefix(c, lowest, i) {
      forall j | 0 <= j <= i ensures Less(c[j], lowest) {
        assert c[j] in c;
      }
    }
    forall h | h in gd.mergesetBlues + gd.mergesetReds ensures h in r.1 {
      if h == gd.selectedParent {
        assert c[|c| - 1].hash == h;
      } else {
        assert h in gd.mergesetBlues[1..] + gd.mergesetReds by {
          if h in gd.mergesetBlues {
            var k :| 0 <= k < |gd.mergesetBlues| && gd.mergesetBlues[k] == h;
            assert k != 0;
            assert gd.mergesetBlues[1..][k - 1] == h;
          }
        }
        assert h in multiset(hs);
        var i :| 0 <= i < |hs| && hs[i] == h;
        assert c[i].hash == h;
      }
    }
  }

  /** The DAA score depends on the window only through its multiset of blocks. */
  lemma DaaScoreWindowOrderInvariant(
    headers: HeaderStore, window: seq<SortableBlock>, window': seq<SortableBlock>, gd: GhostdagData,
    ascending: seq<SortableBlock>, blueWorks: map<Hash, nat>)
    requires gd.selectedParent in headers.daaScores
    requires IsAscendingMergeset(gd, ascending)
    requires multiset(window) == multiset(window')
    ensures CalcDaaScoreAndNonDaaMergesetBlocks(headers, window, gd, ascending, blueWorks)
      == CalcDaaScoreAndNonDaaMergesetBlocks(headers, window', gd, ascending, blueWorks)
  {
    if window != [] {
      MinBlockOrderInvariant(window, window');
    } else {
      assert |multiset(window')| == 0;
    }
  }

  // ---------------------------------------------------------------------------------------
  // Difficulty blocks and their order
  // ---------------------------------------------------------------------------------------

  /** A window block with its header's timestamp and difficulty bits. */
  datatype DifficultyBlock = DifficultyBlock(timestamp: u64, bits: u32, sortableBlock: SortableBlock)

  /** `Ord for DifficultyBlock`: timestamp first, then the sortable block. */
  predicate BlockLess(a: DifficultyBlock, b: DifficultyBlock): (r: bool)
    ensures r ==> a.timestamp <= b.timestamp && a != b
    ensures a.timestamp < b.timestamp ==> r
    ensures a.timestamp == b.timestamp ==> (r <==> Less(a.sortableBlock, b.sortableBlock))
  {
    a.timestamp < b.timestamp || (a.timestamp == b.timestamp && Less(a.sortableBlock, b.sortableBlock))
  }

  /** `PartialEq for DifficultyBlock`: only the sortable blocks are compared, so two blocks are
      equal exactly when neither sortable block is below the other, whatever their header
      data. */
  predicate BlockEq(a: DifficultyBlock, b: DifficultyBlock): (r: bool)
    ensures r <==> !Less(a.sortableBlock, b.sortableBlock) && !Less(b.sortableBlock, a.sortableBlock)
    ensures a == b ==> r
    ensures r && a.timestamp == b.timestamp && a.bits == b.bits ==> a == b
  {
    a.sortableBlock == b.sortableBlock
  }

  /** Blocks read from one header store: equal sortable blocks come with equal header data,
      the assumption `PartialEq for DifficultyBlock` rests on. */
  ghost predicate Consistent(blocks: seq<DifficultyBlock>) {
    forall i, j | 0 <= i < |blocks| && 0 <= j < |blocks| :: BlockEq(blocks[i], blocks[j]) ==> blocks[i] == blocks[j]
  }

  /** The order is a strict total order on consistent blocks, and neither of two blocks is
      below the other exactly when `PartialEq` calls them equal. */
  lemma BlockOrderAgreesWithEq(a: DifficultyBlock, b: DifficultyBlock)
    requires Consistent([a, b])
    ensures !BlockLess(a, a)
    ensures !(BlockLess(a, b) && BlockLess(b, a))
    ensures (!BlockLess(a, b) && !BlockLess(b, a)) <==> BlockEq(a, b)
    ensures BlockEq(a, b) <==> a == b
  {
    assert [a, b][0] == a && [a, b][1] == b;
    LessIsStrictTotalOrder();
  }

  /** `get_difficulty_blocks`: each window block with its header data, in window order. */
  function DifficultyBlocks(headers: HeaderStore, window: seq<SortableBlock>): (blocks: seq<DifficultyBlock>)
    requires forall b | b in window :: b.hash in headers.compactData
    ensures |blocks| == |window|
    ensures forall i | 0 <= i < |window| :: blocks[i].sortableBlock == window[i]
  {
    seq(|window|, i requires 0 <= i < |window| =>
      var data := headers.compactData[window[i].hash];
      DifficultyBlock(data.timestamp, data.bits, window[i]))
  }

  /** Blocks materialised from one header store are consistent. */
  lemma DifficultyBlocksConsistent(headers: HeaderStore, window: seq<SortableBlock>)
    requires forall b | b in window :: b.hash in headers.compactData
    ensures Consistent(DifficultyBlocks(headers, window))
  {
  }

  /** Position of the minimum under the block order, the first one among equals, as
      `position_minmax` reports it. */
  function MinIndex(s: seq<DifficultyBlock>): (i: nat)
    requires |s| > 0
    ensures i < |s|
    ensures forall j | 0 <= j < |s| :: !BlockLess(s[j], s[i])
    ensures forall j | 0 <= j < i :: BlockLess(s[i], s[j])
    ensures forall j | 0 <= j < |s| :: s[i].timestamp <= s[j].timestamp
  {
    if |s| == 1 then 0
    else
      var i := MinIndex(s[..|s| - 1]);
      assert forall j | 0 <= j < |s| - 1 :: s[..|s| - 1][j] == s[j];
      if BlockLess(s[|s| - 1], s[i]) then |s| - 1 else i
  }

  /** Position of the maximum under the block order, the last one among equals, as
      `position_minmax` reports it. */
  function MaxIndex(s: seq<DifficultyBlock>): (i: nat)
    requires |s| > 0
    ensures i < |s|
    ensures forall j | 0 <= j < |s| :: !BlockLess(s[i], s[j])
    ensures forall j | i < j < |s| :: BlockLess(s[j], s[i])
    ensures forall j | 0 <= j < |s| :: s[j].timestamp <= s[i].timestamp
  {
    if |s| == 1 then 0
    else
      var i := MaxIndex(s[..|s| - 1]);
      assert forall j | 0 <= j < |s| - 1 :: s[..|s| - 1][j] == s[j];
      if !BlockLess(s[|s| - 1], s[i]) then |s| - 1 else i
  }

  function RemoveAt<T>(s: seq<T>, i: nat): (r: seq<T>)
    requires i < |s|
    ensures |r| == |s| - 1
    ensures multiset(r) + multiset{s[i]} == multiset(s)
  {
    assert s == s[..i] + [s[i]] + s[i + 1..];
    s[..i] + s[i + 1..]
  }

  /** `Vec::swap_remove`: the last element takes the place of the removed one. */
  function SwapRemove<T>(s: seq<T>, i: nat): (r: seq<T>)
    requires i < |s|
    ensures |r| == |s| - 1
    ensures forall j | 0 <= j < |r| :: r[j] == (if j == i then s[|s| - 1] else s[j])
  {
    s[i := s[|s| - 1]][..|s| - 1]
  }

  /** Removing by swapping leaves the same multiset as removing in place. */
  lemma SwapRemoveIsRemoveAt<T>(s: seq<T>, i: nat)
    requires i < |s|
    ensures multiset(SwapRemove(s, i)) == multiset(RemoveAt(s, i))
  {
    var last := |s| - 1;
    var r := SwapRemove(s, i);
    if i < last {
      assert s == s[..i] + [s[i]] + s[i + 1..last] + [s[last]];
      assert r == s[..i] + [s[last]] + s[i + 1..last];
      assert RemoveAt(s, i) == s[..i] + s[i + 1..last] + [s[last]];
    } else {
      assert r == s[..last] == RemoveAt(s, i);
    }
  }

  // ---------------------------------------------------------------------------------------
  // Sums of targets
  // ---------------------------------------------------------------------------------------

  /** The sum of the decoded targets of `s`. */
  function SumTargets(codec: CompactCodec, s: seq<DifficultyBlock>): nat {
    if s == [] then 0 else SumTargets(codec, s[..|s| - 1]) + codec.fromCompact(s[|s| - 1].bits)
  }

  lemma {:induction false} SumTargetsConcat(codec: CompactCodec, s: seq<DifficultyBlock>, t: seq<DifficultyBlock>)
    ensures SumTargets(codec, s + t) == SumTargets(codec, s) + SumTargets(codec, t)
    decreases |t|
  {
    if t == [] {
      assert s + t == s;
    } else {
      assert (s + t)[..|s + t| - 1] == s + t[..|t| - 1];
      SumTargetsConcat(codec, s, t[..|t| - 1]);
    }
  }

  /** Taking one block out of a sum subtracts its target. */
  lemma SumTargetsRemoveAt(codec: CompactCodec, t: seq<DifficultyBlock>, j: nat)
    requires j < |t|
    ensures SumTargets(codec, t) == SumTargets(codec, RemoveAt(t, j)) + codec.fromCompact(t[j].bits)
  {
    var x := t[j];
    assert t == (t[..j] + [x]) + t[j + 1..];
    SumTargetsConcat(codec, t[..j] + [x], t[j + 1..]);
    SumTargetsConcat(codec, t[..j], [x]);
    SumTargetsConcat(codec, t[..j], t[j + 1..]);
    assert SumTargets(codec, [x]) == codec.fromCompact(x.bits) by {
      assert [x][..0] == [];
    }
  }

  /** The sum depends only on the multiset of blocks. */
  lemma {:induction false} SumTargetsPermutation(codec: CompactCodec, s: seq<DifficultyBlock>, t: seq<DifficultyBlock>)
    requires multiset(s) == multiset(t)
    ensures SumTargets(codec, s) == SumTargets(codec, t)
    decreases |s|
  {
    if s == [] {
      assert |multiset(t)| == 0;
    } else {
      var x := s[|s| - 1];
      var s' := s[..|s| - 1];
      assert s == s' + [x];
      assert x in multiset(t);
      var j :| 0 <= j < |t| && t[j] == x;
      var t' := RemoveAt(t, j);
      assert multiset(s') + multiset{x} == multiset(t') + multiset{x};
      assert multiset(s') == (multiset(s') + multiset{x}) - multiset{x};
      assert multiset(t') == (multiset(t') + multiset{x}) - multiset{x};
      SumTargetsPermutation(codec, s', t');
      SumTargetsRemoveAt(codec, t, j);
    }
  }

  /** A sum of `n` targets that all equal `target`. */
  lemma {:induction false} SumTargetsConstant(codec: CompactCodec, s: seq<DifficultyBlock>, target: nat)
    requires forall j | 0 <= j < |s| :: codec.fromCompact(s[j].bits) == target
    ensures SumTargets(codec, s) == |s| * target
  {
    if s != [] {
      SumTargetsConstant(codec, s[..|s| - 1], target);
    }
  }

  /** A sum of `n` 256-bit targets is below `n * 2^256`. */
  lemma {:induction false} SumTargetsBound(codec: CompactCodec, s: seq<DifficultyBlock>)
    requires ValidCodec(codec)
    ensures SumTargets(codec, s) <= |s| * (TWO_256 - 1)
  {
    if s != [] {
      SumTargetsBound(codec, s[..|s| - 1]);
      assert codec.fromCompact(s[|s| - 1].bits) < TWO_256;
    }
  }

  // ---------------------------------------------------------------------------------------
  // The next difficulty target
  // ---------------------------------------------------------------------------------------

  /** Timestamp of the block `calculate_difficulty_bits` removes: the first least block. */
  function MinTimestamp(blocks: seq<DifficultyBlock>): u64
    requires |blocks| > 0
  {
    blocks[MinIndex(blocks)].timestamp
  }

  /** Timestamp of the last greatest block. */
  function MaxTimestamp(blocks: seq<DifficultyBlock>): u64
    requires |blocks| > 0
  {
    blocks[MaxIndex(blocks)].timestamp
  }

  /** The blocks whose targets are averaged: all but the first least one. */
  function AveragedBlocks(blocks: seq<DifficultyBlock>): seq<DifficultyBlock>
    requires |blocks| > 0
  {
    RemoveAt(blocks, MinIndex(blocks))
  }

  /** The retarget formula: the average of n targets summing to `sum`, scaled by the elapsed
      time over the expected time, `sum / n * elapsed / target_time_per_block / n`, dividing
      left to right. */
  function ScaledTarget(sum: nat, elapsed: nat, targetTimePerBlock: nat, n: nat): nat
    requires targetTimePerBlock > 0 && n > 0
  {
    var average: nat := sum / n;
    var product: nat := average * elapsed;
    product / targetTimePerBlock / n
  }

  /** With n blocks of target `target` spanning n block times, the formula gives `target`. */
  lemma ScaledTargetAtSteadyState(target: nat, targetTimePerBlock: nat, n: nat)
    requires targetTimePerBlock > 0 && n > 0
    ensures n * target / n == target
    ensures Max(targetTimePerBlock * n, 1) == targetTimePerBlock * n
    ensures ScaledTarget(n * target, targetTimePerBlock * n, targetTimePerBlock, n) == target
  {
    DivUnique(n * target, n, target, 0);
    MulLessIff(targetTimePerBlock, 0, n);
    assert target * (targetTimePerBlock * n) == targetTimePerBlock * (target * n);
    DivUnique(target * (targetTimePerBlock * n), targetTimePerBlock, target * n, 0);
    DivUnique(target * n, n, target, 0);
  }

  /** The retarget step on numbers: the sum of n targets, the elapsed time and the target
      time per block give the new target, or abort on a division by zero or a target of
      2^256 or more. */
  function Retarget(sum: nat, n: nat, elapsed: nat, targetTimePerBlock: nat): (r: Checked<nat>)
    ensures r.Done? ==> n > 0 && targetTimePerBlock > 0 && r.value < TWO_256
  {
    if n == 0 || targetTimePerBlock == 0 then Panic
    else
      var newTarget := ScaledTarget(sum, elapsed, targetTimePerBlock, n);
      if newTarget >= TWO_256 then Panic else Done(newTarget)
  }

  /** The target of a full window (the part of `calculate_difficulty_bits` after the length
      check), before its compact encoding: the average target of all blocks but the least,
      scaled by the elapsed time between the least and the greatest block (at least 1 ms) over
      `target_time_per_block` times the number of averaged blocks, rounding down after each
      division. A window of one or no block, a zero `target_time_per_block` and a target of
      2^256 or more abort. */
  function NextTarget(m: DifficultyManager, codec: CompactCodec, blocks: seq<DifficultyBlock>): (r: Checked<nat>)
    ensures r.Done? ==> |blocks| >= 2 && m.targetTimePerBlock > 0 && r.value < TWO_256
  {
    if |blocks| == 0 then Panic
    else
      var rest := AveragedBlocks(blocks);
      Retarget(SumTargets(codec, rest), |rest|, Max(MaxTimestamp(blocks) - MinTimestamp(blocks), 1), m.targetTimePerBlock)
  }

  /** What `calculate_difficulty_bits` returns for the difficulty blocks of a window. */
  function ExpectedDifficultyBits(m: DifficultyManager, codec: CompactCodec, blocks: seq<DifficultyBlock>): Checked<u32> {
    if |blocks| < m.difficultyAdjustmentWindowSize then Done(m.genesisBits)
    else
      match NextTarget(m, codec, blocks)
      case Done(t) => Done(codec.toCompact(t))
      case Panic => Panic
  }

  /** Until the window is full the difficulty stays at the genesis bits, whatever the blocks. */
  lemma GenesisBitsUntilWindowFull(m: DifficultyManager, codec: CompactCodec, blocks: seq<DifficultyBlock>)
    requires |blocks| < m.difficultyAdjustmentWindowSize
    ensures ExpectedDifficultyBits(m, codec, blocks) == Done(m.genesisBits)
  {
  }

  /** Exactly one block is left out of the average, and it is a least block: its timestamp is
      the smallest, ties on timestamp go to the smaller sortable block, and every block before
      it is strictly greater. */
  lemma {:induction false} ExactlyOneMinimumRemoved(blocks: seq<DifficultyBlock>)
    requires |blocks| > 0
    ensures var i := MinIndex(blocks);
      && multiset(AveragedBlocks(blocks)) + multiset{blocks[i]} == multiset(blocks)
      && |AveragedBlocks(blocks)| == |blocks| - 1
      && (forall j | 0 <= j < |blocks| :: MinTimestamp(blocks) <= blocks[j].timestamp)
      && (forall j | 0 <= j < |blocks| && blocks[j].timestamp == MinTimestamp(blocks) ::
            !Less(blocks[j].sortableBlock, blocks[i].sortableBlock))
      && (forall j | 0 <= j < i :: BlockLess(blocks[i], blocks[j]))
  {
    var i := MinIndex(blocks);
    forall j | 0 <= j < |blocks| && blocks[j].timestamp == MinTimestamp(blocks)
      ensures !Less(blocks[j].sortableBlock, blocks[i].sortableBlock)
    {
      assert !BlockLess(blocks[j], blocks[i]);
    }
  }

  /** All intermediate values fit the 320-bit type the source computes in: the sum of up to
      2^64 - 1 targets and the average target times the elapsed milliseconds. */
  lemma TargetArithmeticFitsUint320(codec: CompactCodec, blocks: seq<DifficultyBlock>)
    requires ValidCodec(codec)
    requires 2 <= |blocks| < TWO_64
    ensures var rest := AveragedBlocks(blocks);
      var sum := SumTargets(codec, rest);
      && sum < TWO_320
      && sum / |rest| < TWO_256
      && sum / |rest| * Max(MaxTimestamp(blocks) - MinTimestamp(blocks), 1) < TWO_320
  {
    var rest := AveragedBlocks(blocks);
    SumTargetsBound(codec, rest);
    Uint320Bounds(SumTargets(codec, rest), |rest|, Max(MaxTimestamp(blocks) - MinTimestamp(blocks), 1));
  }

  /** 320 bits hold a sum of n < 2^64 values below 2^256, and the product of their average with
      a 64-bit number. */
  lemma Uint320Bounds(sum: nat, n: nat, elapsed: nat)
    requires 0 < n < TWO_64 && sum <= n * (TWO_256 - 1) && elapsed < TWO_64
    ensures sum < TWO_320 && sum / n < TWO_256 && sum / n * elapsed < TWO_320
  {
    MulLessIff(TWO_256 - 1, n, TWO_64);
    DivAtMost(sum, n, TWO_256 - 1);
    var average := sum / n;
    MulLessIff(elapsed + 1, average, TWO_256);
    MulLessIff(TWO_256, elapsed, TWO_64);
  }

  /** The retarget step at steady state returns the common target. */
  lemma RetargetAtSteadyState(target: nat, targetTimePerBlock: nat, n: nat)
    requires target < TWO_256 && targetTimePerBlock > 0 && n > 0
    ensures Retarget(n * target, n, Max(targetTimePerBlock * n, 1), targetTimePerBlock) == Done(target)
  {
    ScaledTargetAtSteadyState(target, targetTimePerBlock, n);
  }

  /** Ten blocks of one target spanning ten block times do not keep the target: only nine
      blocks are averaged, so the elapsed time is read against nine block times and the
      target rises by a ninth (900 becomes 1000). */
  lemma TenBlocksOverTenBlockTimes()
    ensures Retarget(9 * 900, 9, Max(10_000, 1), 1000) == Done(1000)
  {
  }

  /** Steady state: when every averaged block has target `target` and the window spans exactly
      `target_time_per_block` per averaged block, the next target is `target` again. */
  lemma SteadyStateKeepsTarget(m: DifficultyManager, codec: CompactCodec, blocks: seq<DifficultyBlock>, target: nat)
    requires ValidCodec(codec)
    requires |blocks| >= 2 && m.targetTimePerBlock > 0
    requires forall j | 0 <= j < |blocks| && j != MinIndex(blocks) :: codec.fromCompact(blocks[j].bits) == target
    requires MaxTimestamp(blocks) - MinTimestamp(blocks) == m.targetTimePerBlock * (|blocks| - 1)
    ensures NextTarget(m, codec, blocks) == Done(target)
  {
    var i := MinIndex(blocks);
    var rest := AveragedBlocks(blocks);
    var n := |rest|;
    forall k | 0 <= k < n ensures codec.fromCompact(rest[k].bits) == target {
      if k < i { assert rest[k] == blocks[k]; } else { assert rest[k] == blocks[k + 1]; }
    }
    SumTargetsConstant(codec, rest, target);
    assert target < TWO_256 by {
      assert codec.fromCompact(blocks[if i == 0 then 1 else 0].bits) == target;
    }
    RetargetAtSteadyState(target, m.targetTimePerBlock, n);
    var elapsed := Max(MaxTimestamp(blocks) - MinTimestamp(blocks), 1);
    assert elapsed == Max(m.targetTimePerBlock * n, 1);
    assert NextTarget(m, codec, blocks) == Retarget(SumTargets(codec, rest), n, elapsed, m.targetTimePerBlock);
  }

  /** In any arrangement of a consistent collection of blocks the removed block is the same. */
  lemma SameLeastBlock(s: seq<DifficultyBlock>, t: seq<DifficultyBlock>)
    requires Consistent(s) && |s| > 0
    requires multiset(s) == multiset(t)
    ensures |t| > 0 && s[MinIndex(s)] == t[MinIndex(t)]
  {
    assert |s| == |multiset(s)| == |multiset(t)| == |t|;
    var a, b := s[MinIndex(s)], t[MinIndex(t)];
    assert a in multiset(t) && b in multiset(s);
    var ib :| 0 <= ib < |s| && s[ib] == b;
    var ja :| 0 <= ja < |t| && t[ja] == a;
    assert !BlockLess(b, a) && !BlockLess(a, b);
    LessIsStrictTotalOrder();
    assert BlockEq(s[MinIndex(s)], s[ib]);
  }

  /** The greatest timestamp does not depend on the arrangement of the blocks. */
  lemma SameMaxTimestamp(s: seq<DifficultyBlock>, t: seq<DifficultyBlock>)
    requires |s| > 0 && multiset(s) == multiset(t)
    ensures |t| > 0 && MaxTimestamp(s) == MaxTimestamp(t)
  {
    assert |s| == |multiset(s)| == |multiset(t)| == |t|;
    var ms, mt := s[MaxIndex(s)], t[MaxIndex(t)];
    assert ms in multiset(t) && mt in multiset(s);
    var p :| 0 <= p < |t| && t[p] == ms;
    var q :| 0 <= q < |s| && s[q] == mt;
  }

  /** The next target depends only on the sum of the averaged targets, their number and the
      extreme timestamps. */
  lemma NextTargetCongruence(m: DifficultyManager, codec: CompactCodec, s: seq<DifficultyBlock>, t: seq<DifficultyBlock>)
    requires |s| == |t| > 0
    requires SumTargets(codec, AveragedBlocks(s)) == SumTargets(codec, AveragedBlocks(t))
    requires MinTimestamp(s) == MinTimestamp(t) && MaxTimestamp(s) == MaxTimestamp(t)
    ensures NextTarget(m, codec, s) == NextTarget(m, codec, t)
  {
  }

  /** The next difficulty depends on the window only through its multiset of blocks. */
  lemma DifficultyBitsOrderInvariant(m: DifficultyManager, codec: CompactCodec, s: seq<DifficultyBlock>, t: seq<DifficultyBlock>)
    requires Consistent(s)
    requires multiset(s) == multiset(t)
    ensures NextTarget(m, codec, s) == NextTarget(m, codec, t)
    ensures ExpectedDifficultyBits(m, codec, s) == ExpectedDifficultyBits(m, codec, t)
  {
    assert |s| == |multiset(s)| == |multiset(t)| == |t|;
    if |s| > 0 {
      SameLeastBlock(s, t);
      SameMaxTimestamp(s, t);
      SameAveragedSum(codec, s, t);
      NextTargetCongruence(m, codec, s, t);
    }
  }

  /** The averaged blocks of two arrangements of a consistent collection sum to the same. */
  lemma SameAveragedSum(codec: CompactCodec, s: seq<DifficultyBlock>, t: seq<DifficultyBlock>)
    requires Consistent(s) && |s| > 0
    requires multiset(s) == multiset(t)
    ensures |t| > 0 && SumTargets(codec, AveragedBlocks(s)) == SumTargets(codec, AveragedBlocks(t))
  {
    SameLeastBlock(s, t);
    var a := s[MinIndex(s)];
    var rs, rt := AveragedBlocks(s), AveragedBlocks(t);
    assert multiset(rs) == multiset(s) - multiset{a} == multiset(t) - multiset{a} == multiset(rt);
    SumTargetsPermutation(codec, rs, rt);
  }

  /** `position_minmax` over the window: the positions of the first least and the last
      greatest block, in one pass. */
  method PositionMinMax(blocks: seq<DifficultyBlock>) returns (minIndex: nat, maxIndex: nat)
    requires |blocks| > 0
    ensures minIndex == MinIndex(blocks) && maxIndex == MaxIndex(blocks)
  {
    minIndex, maxIndex := 0, 0;
    var k := 1;
    while k < |blocks|
      invariant 1 <= k <= |blocks|
      invariant minIndex == MinIndex(blocks[..k])
      invariant maxIndex == MaxIndex(blocks[..k])
    {
      assert blocks[..k + 1][..k] == blocks[..k];
      if BlockLess(blocks[k], blocks[minIndex]) {
        minIndex := k;
      }
      if !BlockLess(blocks[k], blocks[maxIndex]) {
        maxIndex := k;
      }
      k := k + 1;
    }
    assert blocks[..k] == blocks;
  }

  /** The `Uint320` sum of the decoded targets, accumulated in order. */
  method TargetSum(codec: CompactCodec, s: seq<DifficultyBlock>) returns (sum: nat)
    ensures sum == SumTargets(codec, s)
  {
    sum := 0;
    for j := 0 to |s|
      invariant sum == SumTargets(codec, s[..j])
    {
      assert s[..j + 1][..j] == s[..j];
      sum := sum + codec.fromCompact(s[j].bits);
    }
    assert s[..|s|] == s;
  }

  /** The next target computed from any rearrangement of the averaged blocks. */
  lemma NextTargetOfPositions(m: DifficultyManager, codec: CompactCodec, blocks: seq<DifficultyBlock>, remaining: seq<DifficultyBlock>)
    requires |blocks| > 0 && multiset(remaining) == multiset(AveragedBlocks(blocks))
    ensures NextTarget(m, codec, blocks) == Retarget(SumTargets(codec, remaining), |remaining|,
      Max(MaxTimestamp(blocks) - MinTimestamp(blocks), 1), m.targetTimePerBlock)
  {
    var averaged := AveragedBlocks(blocks);
    assert |remaining| == |averaged| by {
      assert |remaining| == |multiset(remaining)| == |multiset(averaged)| == |averaged|;
    }
    assert SumTargets(codec, remaining) == SumTargets(codec, averaged) by {
      SumTargetsPermutation(codec, remaining, averaged);
    }
  }

  /** The first steps of `calculate_difficulty_bits` on a full window: locate the least and
      the greatest block with `position_minmax`, read their timestamps, and `swap_remove` the
      least block. */
  method SplitWindow(blocks: seq<DifficultyBlock>) returns (minTs: u64, maxTs: u64, remaining: seq<DifficultyBlock>)
    requires |blocks| > 0
    ensures minTs == MinTimestamp(blocks) && maxTs == MaxTimestamp(blocks)
    ensures multiset(remaining) == multiset(AveragedBlocks(blocks))
  {
    var minIndex, maxIndex := PositionMinMax(blocks);
    minTs, maxTs := blocks[minIndex].timestamp, blocks[maxIndex].timestamp;
    remaining := SwapRemove(blocks, minIndex);
    SwapRemoveIsRemoveAt(blocks, minIndex);
  }

  /** The part of `calculate_difficulty_bits` after the length check: the next target of a
      full window. */
  method ComputeNextTarget(m: DifficultyManager, codec: CompactCodec, blocks: seq<DifficultyBlock>) returns (r: Checked<nat>)
    ensures r == NextTarget(m, codec, blocks)
  {
    if |blocks| == 0 {
      return Panic;  // `position_minmax` found nothing
    }
    var minTs, maxTs, remaining := SplitWindow(blocks);
    var n := |remaining|;
    var sum := TargetSum(codec, remaining);
    NextTargetOfPositions(m, codec, blocks, remaining);
    if n == 0 {
      return Panic;  // the average divides by zero
    }
    if m.targetTimePerBlock == 0 {
      return Panic;  // division by zero
    }
    var newTarget := ScaledTarget(sum, Max(maxTs - minTs, 1), m.targetTimePerBlock, n);
    if newTarget >= TWO_256 {
      return Panic;  // "Expected target should be less than 2^256"
    }
    r := Done(newTarget);
  }

  /** `calculate_difficulty_bits`: the compact bits of the next block's difficulty target. */
  method CalculateDifficultyBits(m: DifficultyManager, codec: CompactCodec, headers: HeaderStore, window: seq<SortableBlock>)
    returns (r: Checked<u32>)
    requires forall b | b in window :: b.hash in headers.compactData
    ensures r == ExpectedDifficultyBits(m, codec, DifficultyBlocks(headers, window))
  {
    var blocks := DifficultyBlocks(headers, window);
    if |blocks| < m.difficultyAdjustmentWindowSize {
      return Done(m.genesisBits);
    }
    var target := ComputeNextTarget(m, codec, blocks);
    match target
    case Done(t) => r := Done(codec.toCompact(t));
    case Panic => r := Panic;
  }

  // ---------------------------------------------------------------------------------------
  // Network hashrate estimation
  // ---------------------------------------------------------------------------------------

  /** The fewest blocks a window needs before the hashrate is estimated. */
  const MIN_WINDOW_SIZE: nat := 1000

  datatype DifficultyError =
    | UnderMinWindowSizeAllowed(windowSize: nat, minWindowSize: nat)
    | EmptyTimestampRange

  /** The least element of a non-empty sequence of numbers. */
  function SeqMin(s: seq<nat>): (m: nat)
    requires |s| > 0
    ensures m in s && forall x | x in s :: m <= x
  {
    if |s| == 1 then s[0]
    else
      var rest := SeqMin(s[1..]);
      assert forall x | x in s :: x == s[0] || x in s[1..];
      if s[0] <= rest then s[0] else rest
  }

  /** The greatest element of a non-empty sequence of numbers. */
  function SeqMax(s: seq<nat>): (m: nat)
    requires |s| > 0
    ensures m in s && forall x | x in s :: x <= m
  {
    if |s| == 1 then s[0]
    else
      var rest := SeqMax(s[1..]);
      assert forall x | x in s :: x == s[0] || x in s[1..];
      if rest <= s[0] then s[0] else rest
  }

  function Timestamps(blocks: seq<DifficultyBlock>): (r: seq<nat>)
    ensures |r| == |blocks| && forall i | 0 <= i < |blocks| :: r[i] == blocks[i].timestamp
  {
    seq(|blocks|, i requires 0 <= i < |blocks| => blocks[i].timestamp)
  }

  function BlueWorks(blocks: seq<DifficultyBlock>): (r: seq<nat>)
    ensures |r| == |blocks| && forall i | 0 <= i < |blocks| :: r[i] == blocks[i].sortableBlock.blueWork
  {
    seq(|blocks|, i requires 0 <= i < |blocks| => blocks[i].sortableBlock.blueWork)
  }

  /** Every block of the window carries the same timestamp. */
  predicate SameTimestamps(blocks: seq<DifficultyBlock>) {
    forall i, j | 0 <= i < |blocks| && 0 <= j < |blocks| :: blocks[i].timestamp == blocks[j].timestamp
  }

  /** Some two blocks of the window are at least a second apart. */
  predicate SpansASecond(blocks: seq<DifficultyBlock>) {
    exists i, j | 0 <= i < |blocks| && 0 <= j < |blocks| :: blocks[j].timestamp - blocks[i].timestamp >= 1000
  }

  /** `estimate_network_hashes_per_second`: the blue work accumulated per second over the
      window, truncated to 64 bits. Windows under `MIN_WINDOW_SIZE` blocks and windows whose
      blocks share one timestamp are rejected; a window spanning under a second gives 0. */
  function EstimateNetworkHashesPerSecond(headers: HeaderStore, window: seq<SortableBlock>): (r: Result<u64, DifficultyError>)
    requires forall b | b in window :: b.hash in headers.compactData
    ensures |window| < MIN_WINDOW_SIZE <==> r == Err(UnderMinWindowSizeAllowed(|window|, MIN_WINDOW_SIZE))
    ensures r == Err(EmptyTimestampRange) <==> |window| >= MIN_WINDOW_SIZE && SameTimestamps(DifficultyBlocks(headers, window))
    ensures r.Ok? && r.value != 0 ==> SpansASecond(DifficultyBlocks(headers, window))
    ensures r.Ok? ==> |window| >= MIN_WINDOW_SIZE
    ensures r.Ok? ==>
      var blocks := DifficultyBlocks(headers, window);
      var timestamps, blueWorks := Timestamps(blocks), BlueWorks(blocks);
      IsSpreadPerSecond(SeqMin(timestamps), SeqMax(timestamps), SeqMin(blueWorks), SeqMax(blueWorks), r.value)
  {
    if |window| < MIN_WINDOW_SIZE then Err(UnderMinWindowSizeAllowed(|window|, MIN_WINDOW_SIZE))
    else
      var blocks := DifficultyBlocks(headers, window);
      var timestamps, blueWorks := Timestamps(blocks), BlueWorks(blocks);
      TimestampSpread(blocks);
      assert SeqMin(blueWorks) <= SeqMax(blueWorks) by { assert SeqMin(blueWorks) in blueWorks; }
      SpreadPerSecond(SeqMin(timestamps), SeqMax(timestamps), SeqMin(blueWorks), SeqMax(blueWorks))
  }

  /** `v` is the estimate for a window with these least and greatest timestamps and blue works:
      the spread of its blue work over the span of its timestamps in whole seconds, truncated
      to 64 bits, or 0 when the span is under a second. */
  predicate IsSpreadPerSecond(minTs: nat, maxTs: nat, minBlueWork: nat, maxBlueWork: nat, v: nat) {
    var span := maxTs - minTs;
    v == if span < 1000 then 0 else ((maxBlueWork - minBlueWork) / (span / 1000)) % TWO_64
  }

  /** The estimate from the extremes of the timestamps and blue works of a window of allowed
      size. */
  function SpreadPerSecond(minTs: nat, maxTs: nat, minBlueWork: nat, maxBlueWork: nat): (r: Result<u64, DifficultyError>)
    requires minTs <= maxTs && minBlueWork <= maxBlueWork
    ensures r.Err? <==> minTs == maxTs
    ensures r.Err? ==> r == Err(EmptyTimestampRange)
    ensures r.Ok? && r.value != 0 ==> maxTs - minTs >= 1000
    ensures r.Ok? ==> IsSpreadPerSecond(minTs, maxTs, minBlueWork, maxBlueWork, r.value)
  {
    if minTs == maxTs then Err(EmptyTimestampRange)
    else
      var windowDuration := (maxTs - minTs) / 1000;
      if windowDuration == 0 then Ok(0)
      else Ok(HashesPerSecond(minBlueWork, maxBlueWork, windowDuration))
  }

  /** The window's blocks share one timestamp exactly when its least and greatest timestamps
      agree, and two of them are a second apart exactly when those two are. */
  lemma TimestampSpread(blocks: seq<DifficultyBlock>)
    requires |blocks| > 0
    ensures SameTimestamps(blocks) <==> SeqMin(Timestamps(blocks)) == SeqMax(Timestamps(blocks))
    ensures SpansASecond(blocks) <==> SeqMax(Timestamps(blocks)) - SeqMin(Timestamps(blocks)) >= 1000
  {
    var ts := Timestamps(blocks);
    var i :| 0 <= i < |blocks| && ts[i] == SeqMin(ts);
    var j :| 0 <= j < |blocks| && ts[j] == SeqMax(ts);
    if SeqMin(ts) == SeqMax(ts) {
      forall i', j' | 0 <= i' < |blocks| && 0 <= j' < |blocks| ensures blocks[i'].timestamp == blocks[j'].timestamp {
        assert ts[i'] in ts && ts[j'] in ts;
      }
    }
    if SpansASecond(blocks) {
      var i', j' :| 0 <= i' < |blocks| && 0 <= j' < |blocks| && blocks[j'].timestamp - blocks[i'].timestamp >= 1000;
      assert ts[i'] in ts && ts[j'] in ts;
    }
  }

  /** The blue work spread per second, truncated to its low 64 bits (`as_u64`). */
  function HashesPerSecond(minBlueWork: nat, maxBlueWork: nat, windowDuration: nat): (r: u64)
    requires minBlueWork <= maxBlueWork && windowDuration > 0
    ensures minBlueWork == maxBlueWork ==> r == 0
  {
    ((maxBlueWork - minBlueWork) / windowDuration) % TWO_64
  }

  /** Two sequences with the same elements have the same least and greatest element. */
  lemma SameExtremes(s: seq<nat>, u: seq<nat>)
    requires |s| > 0 && |u| > 0
    requires forall x :: x in s <==> x in u
    ensures SeqMin(s) == SeqMin(u) && SeqMax(s) == SeqMax(u)
  {
    assert SeqMin(s) in u && SeqMin(u) in s;
    assert SeqMax(s) in u && SeqMax(u) in s;
  }

  /** Every timestamp and every blue work of the blocks of `window` also occurs among the blocks
      of a rearrangement of it. */
  lemma RearrangedValues(headers: HeaderStore, window: seq<SortableBlock>, window': seq<SortableBlock>)
    requires forall b | b in window :: b.hash in headers.compactData
    requires multiset(window) == multiset(window')
    ensures forall b | b in window' :: b.hash in headers.compactData
    ensures forall x | x in Timestamps(DifficultyBlocks(headers, window)) ::
      x in Timestamps(DifficultyBlocks(headers, window'))
    ensures forall x | x in BlueWorks(DifficultyBlocks(headers, window)) ::
      x in BlueWorks(DifficultyBlocks(headers, window'))
  {
    assert forall b | b in window' :: b in multiset(window);
    var blocks, blocks' := DifficultyBlocks(headers, window), DifficultyBlocks(headers, window');
    forall i | 0 <= i < |window|
      ensures Timestamps(blocks)[i] in Timestamps(blocks') && BlueWorks(blocks)[i] in BlueWorks(blocks')
    {
      assert window[i] in multiset(window');
      var j :| 0 <= j < |window'| && window'[j] == window[i];
      assert Timestamps(blocks')[j] == Timestamps(blocks)[i];
      assert BlueWorks(blocks')[j] == BlueWorks(blocks)[i];
    }
  }

  /** The estimate depends on the window only through its multiset of blocks. */
  lemma HashrateOrderInvariant(headers: HeaderStore, window: seq<SortableBlock>, window': seq<SortableBlock>)
    requires forall b | b in window :: b.hash in headers.compactData
    requires multiset(window) == multiset(window')
    ensures forall b | b in window' :: b.hash in headers.compactData
    ensures EstimateNetworkHashesPerSecond(headers, window) == EstimateNetworkHashesPerSecond(headers, window')
  {
    RearrangedValues(headers, window, window');
    RearrangedValues(headers, window', window);
    assert |window| == |multiset(window)| == |multiset(window')| == |window'|;
    if |window| > 0 {
      var blocks, blocks' := DifficultyBlocks(headers, window), DifficultyBlocks(headers, window');
      SameExtremes(Timestamps(blocks), Timestamps(blocks'));
      SameExtremes(BlueWorks(blocks), BlueWorks(blocks'));
      }
  }

  /** A sequence of one repeated value has that value as both its least and greatest element. */
  lemma ConstantMinMax(s: seq<nat>)
    requires |s| > 0 && forall i | 0 <= i < |s| :: s[i] == s[0]
    ensures SeqMin(s) == SeqMax(s) == s[0]
  {
    var i :| 0 <= i < |s| && s[i] == SeqMin(s);
    var j :| 0 <= j < |s| && s[j] == SeqMax(s);
  }

  /** A window of distinct timestamps that spans less than a second estimates 0. */
  lemma HashrateZeroUnderASecond(headers: HeaderStore, window: seq<SortableBlock>)
    requires forall b | b in window :: b.hash in headers.compactData
    requires |window| >= MIN_WINDOW_SIZE
    requires !SameTimestamps(DifficultyBlocks(headers, window))
    requires !SpansASecond(DifficultyBlocks(headers, window))
    ensures EstimateNetworkHashesPerSecond(headers, window) == Ok(0)
  {
  }

  /** A window whose blocks all carry the same blue work estimates 0. */
  lemma HashrateZeroWithoutWork(headers: HeaderStore, window: seq<SortableBlock>)
    requires forall b | b in window :: b.hash in headers.compactData
    requires |window| >= MIN_WINDOW_SIZE && !SameTimestamps(DifficultyBlocks(headers, window))
    requires forall i | 0 <= i < |window| :: window[i].blueWork == window[0].blueWork
    ensures EstimateNetworkHashesPerSecond(headers, window) == Ok(0)
  {
    var blocks := DifficultyBlocks(headers, window);
    ConstantMinMax(BlueWorks(blocks));
  }

  // ---------------------------------------------------------------------------------------
  // Work of a target
  // ---------------------------------------------------------------------------------------

  /** The Bitcoin identity behind `calc_work`: for 0 < d <= M, (M - d) / d + 1 == M / d. */
  lemma WorkIdentity(bigM: nat, d: nat)
    requires 0 < d <= bigM
    ensures (bigM - d) / d + 1 == bigM / d
  {
    var q, r := (bigM - d) / d, (bigM - d) % d;
    assert bigM - d == d * q + r;
    assert d * (q + 1) == d * q + d;
    DivUnique(bigM, d, q + 1, r);
  }

  /** `calc_work`: the expected number of hashes to meet the target the compact bits encode,
      computed without representing 2^256 as `!target / (target + 1) + 1`. The two
      `Uint256` additions are taken to abort on overflow. So it aborts when `target + 1` does
      not fit 256 bits, when the final `+ 1` does not (target 0, where `!0 / 1` is already
      2^256 - 1), and when the work does not fit the 192-bit blue work type. The final
      addition overflows only for a work of 2^256, so the 192-bit test covers it. */
  function CalcWork(codec: CompactCodec, bits: u32): (r: Checked<nat>)
    requires ValidCodec(codec)
    ensures r.Done? <==> codec.fromCompact(bits) + 1 < TWO_256 && TWO_256 / (codec.fromCompact(bits) + 1) < TWO_192
    ensures r.Done? ==> r.value == TWO_256 / (codec.fromCompact(bits) + 1)
  {
    var target := codec.fromCompact(bits);
    if target + 1 >= TWO_256 then Panic
    else
      // `!target` is 2^256 - 1 - target
      var res := (TWO_256 - 1 - target) / (target + 1) + 1;
      WorkIdentity(TWO_256, target + 1);
      if res >= TWO_192 then Panic else Done(res)
  }

  /** An easier (larger) target never needs more work. */
  lemma CalcWorkAntitone(codec: CompactCodec, easier: u32, harder: u32)
    requires ValidCodec(codec)
    requires codec.fromCompact(harder) <= codec.fromCompact(easier)
    requires CalcWork(codec, easier).Done? && CalcWork(codec, harder).Done?
    ensures CalcWork(codec, easier).value <= CalcWork(codec, harder).value
  {
    DivAntitone(TWO_256, codec.fromCompact(harder) + 1, codec.fromCompact(easier) + 1);
  }

  /** The easiest target, 2^255 - 1, takes two hashes on average; the hardest, 0, aborts: its
      work, 2^256, overflows the final `Uint256` addition. */
  lemma CalcWorkExtremes(codec: CompactCodec, easiest: u32, hardest: u32)
    requires ValidCodec(codec)
    requires codec.fromCompact(easiest) == TWO_256 / 2 - 1 && codec.fromCompact(hardest) == 0
    ensures CalcWork(codec, easiest) == Done(2)
    ensures CalcWork(codec, hardest) == Panic
  {
    DivUnique(TWO_256, TWO_256 / 2, 2, 0);
    DivUnique(TWO_256, 1, TWO_256, 0);
  }
}
