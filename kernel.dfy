/**
 * The Pyramid Match Kernel as a recursive definition over the two trees:
 * every pair of bins found at the same path in both pyramids contributes its
 * weighted net intersection, i.e. its own intersection minus the part already
 * credited to its common children.
 */
module MatchKernel {
  import opened Histograms
  import opened ChildMerge

  datatype BinWeightScheme = BinWeightGlobal | BinWeightLocal

  datatype MatchReturnType = Cost | Similarity

  /** The two aggregates the matcher keeps side by side. */
  datatype Totals = Totals(score: real, cost: real)
  {
    function Plus(other: Totals): Totals
    {
      Totals(score + other.score, cost + other.cost)
    }
  }

  const Zero := Totals(0.0, 0.0)

  /**
   * Outcome of a match: the selected aggregate, or the failed assertion on
   * the sizes of a matched pair under the global weighting scheme.
   */
  datatype MatchResult = Matched(value: real) | SizeMismatch

  /** Both trees are well formed and the two bins sit at the same depth. */
  predicate Matchable(a: Bin, b: Bin)
  {
    WellFormed(a) && WellFormed(b) && |a.index| == |b.index|
  }

  /** The common children of two matched bins. */
  function ChildPairs(a: Bin, b: Bin): (r: seq<Pair>)
    requires Matchable(a, b)
    ensures ChildPairsOf(a, b, r)
  {
    CommonChildren(a.children, b.children, |a.index|)
  }

  /** The pairs are children of `a` and `b` respectively, and matchable. */
  predicate ChildPairsOf(a: Bin, b: Bin, ps: seq<Pair>)
  {
    forall k :: 0 <= k < |ps| ==>
      && ps[k].first in a.children
      && ps[k].second in b.children
      && Matchable(ps[k].first, ps[k].second)
  }

  /** The size used to weight a matched pair. */
  function BinSize(a: Bin, b: Bin, scheme: BinWeightScheme): real
  {
    if scheme == BinWeightGlobal then a.size else a.size + b.size
  }

  /** `1 / (1 + size)`: the finer the bin, the heavier its weight. */
  function Weight(binSize: real): (w: real)
    requires binSize >= 0.0
    ensures 0.0 < w <= 1.0
  {
    1.0 / (1.0 + binSize)
  }

  /** The raw intersection of a matched pair: the smaller of the two counts. */
  function Raw(a: Bin, b: Bin): real
  {
    if a.count > b.count then b.count else a.count
  }

  function SumRaw(ps: seq<Pair>): real
  {
    if ps == [] then 0.0 else SumRaw(ps[..|ps| - 1]) + Raw(ps[|ps| - 1].first, ps[|ps| - 1].second)
  }

  /** The raw intersection already matched at the next finer level. */
  function ChildRaw(a: Bin, b: Bin): real
    requires Matchable(a, b)
  {
    SumRaw(ChildPairs(a, b))
  }

  /** What a net intersection `net` adds to the score and to the cost at a bin of size `size`. */
  function Contribution(size: real, net: real): Totals
    requires size >= 0.0
  {
    Totals(Weight(size) * net, size * net)
  }

  /** The contribution of one matched pair on its own: its net intersection, weighted. */
  function Own(a: Bin, b: Bin, scheme: BinWeightScheme): Totals
    requires Matchable(a, b)
  {
    Contribution(BinSize(a, b, scheme), Raw(a, b) - ChildRaw(a, b))
  }

  /** The contribution of the pair (a, b) and of every common pair below it. */
  function Kernel(a: Bin, b: Bin, scheme: BinWeightScheme): Totals
    requires Matchable(a, b)
    decreases a, 1
  {
    Own(a, b, scheme).Plus(KernelSum(a, b, ChildPairs(a, b), scheme))
  }

  /** The sum of `Kernel` over child pairs of (a, b). */
  function KernelSum(a: Bin, b: Bin, ps: seq<Pair>, scheme: BinWeightScheme): Totals
    requires ChildPairsOf(a, b, ps)
    decreases a, 0, |ps|
  {
    if ps == [] then Zero
    else
      var last := ps[|ps| - 1];
      assert last.first in a.children;
      KernelSum(a, b, ps[..|ps| - 1], scheme).Plus(Kernel(last.first, last.second, scheme))
  }

  /** The size assertion that the global scheme makes for one matched pair. */
  predicate OwnAgree(a: Bin, b: Bin, scheme: BinWeightScheme)
  {
    scheme == BinWeightGlobal ==> a.size == b.size
  }

  /** The size assertion holds at (a, b) and at every common pair below it. */
  predicate SizesAgree(a: Bin, b: Bin, scheme: BinWeightScheme)
    requires Matchable(a, b)
    decreases a
  {
    var cs := ChildPairs(a, b);
    && OwnAgree(a, b, scheme)
    && forall k :: 0 <= k < |cs| ==> SizesAgree(cs[k].first, cs[k].second, scheme)
  }

  /** What matching two pyramids yields, by the recursive definition. */
  function PyramidMatch(first: Histogram, second: Histogram, returnType: MatchReturnType,
                        scheme: BinWeightScheme): MatchResult
    requires first.Valid() && second.Valid()
  {
    if !SizesAgree(first.root, second.root, scheme) then SizeMismatch
    else
      var t := Kernel(first.root, second.root, scheme);
      Matched(if returnType == Cost then t.cost else t.score)
  }

  // ---------------------------------------------------------------------------
  // Weights

  /** A larger bin never weighs more than a smaller one. */
  lemma WeightAntitone(s1: real, s2: real)
    requires 0.0 <= s1 <= s2
    ensures Weight(s2) <= Weight(s1)
  {
    var w1, w2 := Weight(s1), Weight(s2);
    assert w1 * (1.0 + s1) == 1.0;
    assert w2 * (1.0 + s2) == 1.0;
    assert w2 * (1.0 + s1) <= w2 * (1.0 + s2);
  }

  // ---------------------------------------------------------------------------
  // Symmetry

  lemma {:induction false} SumRawSwapped(ps: seq<Pair>)
    ensures SumRaw(Swapped(ps)) == SumRaw(ps)
  {
    if ps != [] {
      SumRawSwapped(ps[..|ps| - 1]);
      assert Swapped(ps)[..|ps| - 1] == Swapped(ps[..|ps| - 1]);
    }
  }

  /** Exchanging the pyramids exchanges every common pair. */
  lemma ChildPairsSymmetric(a: Bin, b: Bin)
    requires Matchable(a, b)
    ensures ChildPairs(b, a) == Swapped(ChildPairs(a, b))
  {
    CommonChildrenSymmetric(a.children, b.children, |a.index|);
  }

  /** The size assertion does not depend on the order of the pyramids. */
  lemma {:induction false} SizesAgreeSymmetric(a: Bin, b: Bin, scheme: BinWeightScheme)
    requires Matchable(a, b)
    ensures Matchable(b, a) && (SizesAgree(a, b, scheme) <==> SizesAgree(b, a, scheme))
    decreases a
  {
    var cs := ChildPairs(a, b);
    ChildPairsSymmetric(a, b);
    forall k | 0 <= k < |cs|
      ensures SizesAgree(cs[k].first, cs[k].second, scheme)
          <==> SizesAgree(cs[k].second, cs[k].first, scheme)
    {
      assert cs[k].first in a.children;
      SizesAgreeSymmetric(cs[k].first, cs[k].second, scheme);
    }
    assert forall k :: 0 <= k < |cs| ==> Swapped(cs)[k] == Pair(cs[k].second, cs[k].first);
  }

  /** When the size assertion holds, the kernel does not depend on the order of the pyramids. */
  lemma {:induction false} KernelSymmetric(a: Bin, b: Bin, scheme: BinWeightScheme)
    requires Matchable(a, b) && SizesAgree(a, b, scheme)
    ensures Matchable(b, a) && Kernel(a, b, scheme) == Kernel(b, a, scheme)
    decreases a, 1
  {
    var cs := ChildPairs(a, b);
    ChildPairsSymmetric(a, b);
    SumRawSwapped(cs);
    KernelSumSymmetric(a, b, cs, scheme);
  }

  lemma SwappedChildPairs(a: Bin, b: Bin, ps: seq<Pair>)
    requires ChildPairsOf(a, b, ps)
    ensures ChildPairsOf(b, a, Swapped(ps))
  {
  }

  lemma {:induction false} KernelSumSymmetric(a: Bin, b: Bin, ps: seq<Pair>, scheme: BinWeightScheme)
    requires ChildPairsOf(a, b, ps)
    requires forall k :: 0 <= k < |ps| ==> SizesAgree(ps[k].first, ps[k].second, scheme)
    ensures ChildPairsOf(b, a, Swapped(ps))
    ensures KernelSum(a, b, ps, scheme) == KernelSum(b, a, Swapped(ps), scheme)
    decreases a, 0, |ps|
  {
    SwappedChildPairs(a, b, ps);
    if ps != [] {
      var n := |ps| - 1;
      var last := ps[n];
      assert last.first in a.children;
      KernelSumSymmetric(a, b, ps[..n], scheme);
      KernelSymmetric(last.first, last.second, scheme);
      SwappedLast(ps);
    }
  }

  lemma SwappedLast(ps: seq<Pair>)
    requires ps != []
    ensures Swapped(ps)[..|ps| - 1] == Swapped(ps[..|ps| - 1])
    ensures Swapped(ps)[|ps| - 1] == Pair(ps[|ps| - 1].second, ps[|ps| - 1].first)
  {
  }

  /** Matching is symmetric in its two pyramids. */
  lemma PyramidMatchSymmetric(first: Histogram, second: Histogram, returnType: MatchReturnType,
                              scheme: BinWeightScheme)
    requires first.Valid() && second.Valid()
    ensures PyramidMatch(first, second, returnType, scheme) == PyramidMatch(second, first, returnType, scheme)
  {
    SizesAgreeSymmetric(first.root, second.root, scheme);
    if SizesAgree(first.root, second.root, scheme) {
      KernelSymmetric(first.root, second.root, scheme);
    }
  }

  // ---------------------------------------------------------------------------
  // Non-negativity

  lemma {:induction false} SumRawAppend(ps: seq<Pair>, qs: seq<Pair>)
    ensures SumRaw(ps + qs) == SumRaw(ps) + SumRaw(qs)
    decreases |qs|
  {
    if qs == [] {
      assert ps + qs == ps;
    } else {
      var n := |qs| - 1;
      assert (ps + qs)[..|ps + qs| - 1] == ps + qs[..n];
      assert (ps + qs)[|ps + qs| - 1] == qs[n];
      SumRawAppend(ps, qs[..n]);
    }
  }

  /**
   * The common children of two sibling lists never hold more raw
   * intersection than either list holds points.
   */
  lemma {:induction false} CommonRawBounded(xs: seq<Bin>, ys: seq<Bin>, level: nat)
    requires Reaches(xs, level) && Reaches(ys, level)
    requires forall c | c in xs :: c.count >= 0.0
    requires forall c | c in ys :: c.count >= 0.0
    ensures SumRaw(CommonChildren(xs, ys, level)) <= SumCounts(xs)
    ensures SumRaw(CommonChildren(xs, ys, level)) <= SumCounts(ys)
    decreases |xs| + |ys|
  {
    if xs == [] || ys == [] {
      SumCountsNonNegative(xs);
      SumCountsNonNegative(ys);
    } else if Key(xs[0], level) == Key(ys[0], level) {
      CommonRawBounded(xs[1..], ys[1..], level);
      SumRawAppend([Pair(xs[0], ys[0])], CommonChildren(xs[1..], ys[1..], level));
      assert SumRaw([Pair(xs[0], ys[0])]) == Raw(xs[0], ys[0]);
    } else if Key(xs[0], level) < Key(ys[0], level) {
      CommonRawBounded(xs[1..], ys, level);
    } else {
      CommonRawBounded(xs, ys[1..], level);
    }
  }

  lemma {:induction false} SumCountsNonNegative(cs: seq<Bin>)
    requires forall c | c in cs :: c.count >= 0.0
    ensures SumCounts(cs) >= 0.0
  {
    if cs != [] {
      SumCountsNonNegative(cs[1..]);
    }
  }

  /** Under conservation, the net intersection of a matched pair is never negative. */
  lemma NetNonNegative(a: Bin, b: Bin)
    requires Matchable(a, b) && Conserving(a) && Conserving(b)
    ensures ChildRaw(a, b) <= Raw(a, b)
  {
    ChildrenWellFormed(a);
    ChildrenWellFormed(b);
    CommonRawBounded(a.children, b.children, |a.index|);
  }

  /** A nonnegative net intersection contributes nonnegative score and cost. */
  lemma ContributionNonNegative(size: real, net: real)
    requires size >= 0.0 && net >= 0.0
    ensures Contribution(size, net).score >= 0.0 && Contribution(size, net).cost >= 0.0
  {
  }

  /** Under conservation, both aggregates of the kernel are nonnegative. */
  lemma {:induction false} KernelNonNegative(a: Bin, b: Bin, scheme: BinWeightScheme)
    requires Matchable(a, b) && Conserving(a) && Conserving(b)
    ensures Kernel(a, b, scheme).score >= 0.0 && Kernel(a, b, scheme).cost >= 0.0
    decreases a, 1
  {
    NetNonNegative(a, b);
    ContributionNonNegative(BinSize(a, b, scheme), Raw(a, b) - ChildRaw(a, b));
    KernelSumNonNegative(a, b, ChildPairs(a, b), scheme);
  }

  lemma {:induction false} KernelSumNonNegative(a: Bin, b: Bin, ps: seq<Pair>, scheme: BinWeightScheme)
    requires ChildPairsOf(a, b, ps) && Conserving(a) && Conserving(b)
    ensures KernelSum(a, b, ps, scheme).score >= 0.0 && KernelSum(a, b, ps, scheme).cost >= 0.0
    decreases a, 0, |ps|
  {
    if ps != [] {
      var n := |ps| - 1;
      assert ps[n].first in a.children && ps[n].second in b.children;
      KernelSumNonNegative(a, b, ps[..n], scheme);
      KernelNonNegative(ps[n].first, ps[n].second, scheme);
    }
  }

  /** Under conservation, a successful match never yields a negative value. */
  lemma PyramidMatchNonNegative(first: Histogram, second: Histogram, returnType: MatchReturnType,
                                scheme: BinWeightScheme)
    requires first.Valid() && second.Valid() && Conserving(first.root) && Conserving(second.root)
    ensures PyramidMatch(first, second, returnType, scheme).Matched? ==>
      PyramidMatch(first, second, returnType, scheme).value >= 0.0
  {
    KernelNonNegative(first.root, second.root, scheme);
  }

  // ---------------------------------------------------------------------------
  // Overlap only at the root

  /**
   * When no child selector of `a` is a child selector of `b`, only the pair
   * itself is scored, with its whole raw intersection.
   */
  lemma RootOnlyOverlap(a: Bin, b: Bin, scheme: BinWeightScheme)
    requires Matchable(a, b)
    requires forall x, y | x in a.children && y in b.children :: Key(x, |a.index|) != Key(y, |a.index|)
    ensures Kernel(a, b, scheme) == Totals(Weight(BinSize(a, b, scheme)) * Raw(a, b), BinSize(a, b, scheme) * Raw(a, b))
  {
  }
}
