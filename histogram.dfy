/**
 * The two inputs of the matcher: multi-resolution histograms ("pyramids").
 *
 * A pyramid is a tree of bins. Each bin carries its index path (the child
 * selector chosen at every depth from the root down to it), a point count,
 * a region size, and its children in the order of the first-child /
 * next-sibling links. Bins are never changed by the matcher, so a bin is a
 * value: the tree is an inductive datatype whose children are a sequence.
 */
module Histograms {

  datatype Bin = Bin(index: seq<int>, count: real, size: real, children: seq<Bin>)

  /** Every bin of the sequence has an index path long enough to be read at `level`. */
  predicate Reaches(cs: seq<Bin>, level: nat)
  {
    forall c | c in cs :: level < |c.index|
  }

  /** The selector a bin chose at depth `level` (`GetIndex().at(level)`). */
  function Key(c: Bin, level: nat): int
    requires level < |c.index|
  {
    c.index[level]
  }

  /** The sibling list is in strictly ascending order of the selectors at `level`. */
  predicate Ascending(cs: seq<Bin>, level: nat)
    requires Reaches(cs, level)
  {
    forall k, l :: 0 <= k < l < |cs| ==> Key(cs[k], level) < Key(cs[l], level)
  }

  /** `c`'s index path is `b`'s index path followed by one more selector. */
  predicate Extends(c: Bin, b: Bin)
  {
    |c.index| == |b.index| + 1 && c.index[..|b.index|] == b.index
  }

  /**
   * What the tree builder guarantees about the shape of every bin:
   * nonnegative count and size, and each child's path extends its parent's
   * by one selector.
   */
  predicate WellFormed(b: Bin)
  {
    && b.count >= 0.0
    && b.size >= 0.0
    && forall c | c in b.children :: Extends(c, b) && WellFormed(c)
  }

  /** Every sibling list of the tree is in ascending order of its last selector. */
  predicate Sorted(b: Bin)
  {
    && Reaches(b.children, |b.index|)
    && Ascending(b.children, |b.index|)
    && forall c | c in b.children :: Sorted(c)
  }

  /** What well-formedness says about each child of a well-formed bin. */
  lemma ChildrenWellFormed(b: Bin)
    requires WellFormed(b)
    ensures Reaches(b.children, |b.index|)
    ensures forall c | c in b.children ::
      WellFormed(c) && Extends(c, b) && c.count >= 0.0 && c.size >= 0.0
  {
  }

  /** Number of bins in the tree rooted at `b`. */
  function NumBins(b: Bin): nat
  {
    1 + SumBins(b.children)
  }

  function SumBins(cs: seq<Bin>): nat
  {
    if cs == [] then 0 else NumBins(cs[0]) + SumBins(cs[1..])
  }

  function SumCounts(cs: seq<Bin>): real
  {
    if cs == [] then 0.0 else cs[0].count + SumCounts(cs[1..])
  }

  /**
   * Every bin holds at least as many points as its children together (in a
   * pyramid built from a point set, each point of a bin falls into at most
   * one of its children).
   */
  predicate Conserving(b: Bin)
  {
    && b.count >= SumCounts(b.children)
    && (forall k :: 0 <= k < |b.children| ==> Conserving(b.children[k]))
  }

  /** A multi-resolution histogram: it owns a bin tree whose root has the empty path. */
  datatype Histogram = Histogram(root: Bin)
  {
    predicate Valid()
    {
      WellFormed(root) && Sorted(root) && root.index == []
    }

    /** `GetNumBins()`: the total number of bins. */
    function GetNumBins(): nat
    {
      NumBins(root)
    }
  }
}
