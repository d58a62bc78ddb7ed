/**
 * Two small worked matches under the global weighting scheme, computed
 * from the recursive definition.
 */
module Scenarios {
  import opened Histograms
  import opened ChildMerge
  import opened MatchKernel

  /** Single-level pyramids: two root bins with counts 3 and 5, both of size 2. */
  const OneLevelFirst := Histogram(Bin([], 3.0, 2.0, []))
  const OneLevelSecond := Histogram(Bin([], 5.0, 2.0, []))

  /**
   * Bin size 2, weight 1/3 and net intersection 3: the similarity is 1 and
   * the cost is 6.
   */
  lemma OneLevelMatch()
    ensures OneLevelFirst.Valid() && OneLevelSecond.Valid()
    ensures PyramidMatch(OneLevelFirst, OneLevelSecond, Similarity, BinWeightGlobal) == Matched(1.0)
    ensures PyramidMatch(OneLevelFirst, OneLevelSecond, Cost, BinWeightGlobal) == Matched(6.0)
  {
  }

  /** The common child at path [0]: counts 4 and 6, size 1 on both sides. */
  const ChildFirst := Bin([0], 4.0, 1.0, [])
  const ChildSecond := Bin([0], 6.0, 1.0, [])

  /** Two levels: roots with 10 points each and size 4 above the common child. */
  const TwoLevelFirst := Histogram(Bin([], 10.0, 4.0, [ChildFirst]))
  const TwoLevelSecond := Histogram(Bin([], 10.0, 4.0, [ChildSecond]))

  /** The child pair: weight 1/2 and net 4, so similarity 2 and cost 4. */
  lemma ChildMatch()
    ensures Matchable(ChildFirst, ChildSecond)
    ensures SizesAgree(ChildFirst, ChildSecond, BinWeightGlobal)
    ensures Kernel(ChildFirst, ChildSecond, BinWeightGlobal) == Totals(2.0, 4.0)
  {
    assert ChildPairs(ChildFirst, ChildSecond) == [];
  }

  /** The roots have exactly the one common child, whose raw intersection is 4. */
  lemma RootPairs()
    ensures Matchable(TwoLevelFirst.root, TwoLevelSecond.root)
    ensures ChildPairs(TwoLevelFirst.root, TwoLevelSecond.root) == [Pair(ChildFirst, ChildSecond)]
    ensures ChildRaw(TwoLevelFirst.root, TwoLevelSecond.root) == 4.0
  {
    var a, b := TwoLevelFirst.root, TwoLevelSecond.root;
    assert a.children[1..] == [];
    var ps := [Pair(ChildFirst, ChildSecond)];
    assert CommonChildren(a.children, b.children, 0) == ps;
    assert ps[..0] == [];
    assert SumRaw(ps) == SumRaw([]) + Raw(ChildFirst, ChildSecond);
  }

  lemma KernelSumSingle(a: Bin, b: Bin, p: Pair, scheme: BinWeightScheme)
    requires ChildPairsOf(a, b, [p])
    ensures KernelSum(a, b, [p], scheme) == Kernel(p.first, p.second, scheme)
  {
    assert [p][..0] == [];
  }

  /** Both two-level pyramids are well formed and sorted. */
  lemma TwoLevelValid()
    ensures TwoLevelFirst.Valid() && TwoLevelSecond.Valid()
  {
    assert Extends(ChildFirst, TwoLevelFirst.root);
    assert Extends(ChildSecond, TwoLevelSecond.root);
  }

  /**
   * The child contributes similarity 2 and cost 4 and passes its raw
   * intersection 4 up; the root is left with net 6 at weight 1/5, adding
   * similarity 1.2 and cost 24.
   */
  lemma TwoLevelKernel()
    ensures Matchable(TwoLevelFirst.root, TwoLevelSecond.root)
    ensures Kernel(TwoLevelFirst.root, TwoLevelSecond.root, BinWeightGlobal) == Totals(3.2, 28.0)
  {
    var a, b := TwoLevelFirst.root, TwoLevelSecond.root;
    ChildMatch();
    RootPairs();
    var sum := KernelSum(a, b, ChildPairs(a, b), BinWeightGlobal);
    KernelSumSingle(a, b, Pair(ChildFirst, ChildSecond), BinWeightGlobal);
    RootOwn();
    assert sum == Totals(2.0, 4.0);
  }

  /** The roots keep net intersection 10 - 4 = 6 at bin size 4. */
  lemma RootOwn()
    ensures Matchable(TwoLevelFirst.root, TwoLevelSecond.root)
    ensures Own(TwoLevelFirst.root, TwoLevelSecond.root, BinWeightGlobal) == Totals(1.2, 24.0)
  {
    RootPairs();
    assert Weight(4.0) == 0.2;
  }

  /** In total: similarity 3.2 and cost 28. */
  lemma TwoLevelMatch()
    ensures TwoLevelFirst.Valid() && TwoLevelSecond.Valid()
    ensures PyramidMatch(TwoLevelFirst, TwoLevelSecond, Similarity, BinWeightGlobal) == Matched(3.2)
    ensures PyramidMatch(TwoLevelFirst, TwoLevelSecond, Cost, BinWeightGlobal) == Matched(28.0)
  {
    TwoLevelValid();
    TwoLevelKernel();
    TwoLevelAgree();
  }

  /** Both matched pairs have equal sizes. */
  lemma TwoLevelAgree()
    ensures Matchable(TwoLevelFirst.root, TwoLevelSecond.root)
    ensures SizesAgree(TwoLevelFirst.root, TwoLevelSecond.root, BinWeightGlobal)
  {
    ChildMatch();
    RootPairs();
    SizesAgreeSingle(TwoLevelFirst.root, TwoLevelSecond.root, Pair(ChildFirst, ChildSecond), BinWeightGlobal);
  }

  lemma SizesAgreeSingle(a: Bin, b: Bin, p: Pair, scheme: BinWeightScheme)
    requires Matchable(a, b) && ChildPairs(a, b) == [p] && OwnAgree(a, b, scheme)
    requires Matchable(p.first, p.second) && SizesAgree(p.first, p.second, scheme)
    ensures SizesAgree(a, b, scheme)
  {
    assert [p][0] == p;
  }
}
