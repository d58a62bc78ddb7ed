/**
 * The sorted merge of two sibling lists on their last selector, which is
 * how the matcher finds the children two matched bins have in common.
 */
module ChildMerge {
  import opened Histograms

  /** One bin of the first pyramid and its counterpart in the second. */
  datatype Pair = Pair(first: Bin, second: Bin)

  /**
   * The common children of two sibling lists, in merge order: advance the
   * side whose current selector is smaller, and on equal selectors emit the
   * pair and advance both sides.
   */
  function CommonChildren(xs: seq<Bin>, ys: seq<Bin>, level: nat): (r: seq<Pair>)
    requires Reaches(xs, level) && Reaches(ys, level)
    ensures forall k :: 0 <= k < |r| ==> r[k].first in xs && r[k].second in ys
    ensures forall k :: 0 <= k < |r| ==> Key(r[k].first, level) == Key(r[k].second, level)
    decreases |xs| + |ys|
  {
    if xs == [] || ys == [] then []
    else if Key(xs[0], level) == Key(ys[0], level) then
      [Pair(xs[0], ys[0])] + CommonChildren(xs[1..], ys[1..], level)
    else if Key(xs[0], level) < Key(ys[0], level) then
      CommonChildren(xs[1..], ys, level)
    else
      CommonChildren(xs, ys[1..], level)
  }

  /** Every pair of sibling entries with equal selectors is found by the merge. */
  lemma {:induction false} CommonChildrenComplete(xs: seq<Bin>, ys: seq<Bin>, level: nat, i: nat, j: nat)
    requires Reaches(xs, level) && Reaches(ys, level)
    requires Ascending(xs, level) && Ascending(ys, level)
    requires i < |xs| && j < |ys| && Key(xs[i], level) == Key(ys[j], level)
    ensures Pair(xs[i], ys[j]) in CommonChildren(xs, ys, level)
    decreases |xs| + |ys|
  {
    AscendingTail(xs, level);
    AscendingTail(ys, level);
    if Key(xs[0], level) == Key(ys[0], level) {
      if i > 0 || j > 0 {
        assert i > 0 && j > 0;
        assert xs[i] == xs[1..][i - 1] && ys[j] == ys[1..][j - 1];
        CommonChildrenComplete(xs[1..], ys[1..], level, i - 1, j - 1);
      }
    } else if Key(xs[0], level) < Key(ys[0], level) {
      assert i > 0;
      assert xs[i] == xs[1..][i - 1];
      CommonChildrenComplete(xs[1..], ys, level, i - 1, j);
    } else {
      assert j > 0;
      assert ys[j] == ys[1..][j - 1];
      CommonChildrenComplete(xs, ys[1..], level, i, j - 1);
    }
  }

  lemma AscendingTail(cs: seq<Bin>, level: nat)
    requires cs != [] && Reaches(cs, level) && Ascending(cs, level)
    ensures Reaches(cs[1..], level) && Ascending(cs[1..], level)
    ensures forall c | c in cs[1..] :: Key(cs[0], level) < Key(c, level)
  {
    forall c | c in cs[1..] ensures Key(cs[0], level) < Key(c, level) {
      var m :| 0 <= m < |cs| - 1 && cs[1..][m] == c;
      assert cs[m + 1] == c;
    }
  }

  /**
   * The merge emits exactly the pairs of entries, one from each list, whose
   * selectors agree: nothing else, and nothing is missed.
   */
  lemma CommonChildrenExact(xs: seq<Bin>, ys: seq<Bin>, level: nat, x: Bin, y: Bin)
    requires Reaches(xs, level) && Reaches(ys, level)
    requires Ascending(xs, level) && Ascending(ys, level)
    ensures Pair(x, y) in CommonChildren(xs, ys, level)
        <==> x in xs && y in ys && Key(x, level) == Key(y, level)
  {
    if x in xs && y in ys && Key(x, level) == Key(y, level) {
      var i :| 0 <= i < |xs| && xs[i] == x;
      var j :| 0 <= j < |ys| && ys[j] == y;
      CommonChildrenComplete(xs, ys, level, i, j);
    }
  }

  /** The pairs are in strictly ascending order of the selector at `level`. */
  predicate PairsAscending(ps: seq<Pair>, level: nat)
  {
    forall k, l :: 0 <= k < l < |ps| && level < |ps[k].first.index| && level < |ps[l].first.index|
      ==> Key(ps[k].first, level) < Key(ps[l].first, level)
  }

  lemma PrependAscending(p: Pair, rest: seq<Pair>, level: nat)
    requires level < |p.first.index| && PairsAscending(rest, level)
    requires forall k :: 0 <= k < |rest| ==> level < |rest[k].first.index| && Key(p.first, level) < Key(rest[k].first, level)
    ensures PairsAscending([p] + rest, level)
  {
    var r := [p] + rest;
    forall k, l | 0 <= k < l < |r| && level < |r[k].first.index| && level < |r[l].first.index|
      ensures Key(r[k].first, level) < Key(r[l].first, level)
    {
      assert r[l] == rest[l - 1];
      if k > 0 {
        assert r[k] == rest[k - 1];
      }
    }
  }

  /**
   * The merge emits its pairs in strictly ascending order of selector, so no
   * child pair is emitted twice.
   */
  lemma {:induction false} CommonChildrenAscending(xs: seq<Bin>, ys: seq<Bin>, level: nat)
    requires Reaches(xs, level) && Reaches(ys, level)
    requires Ascending(xs, level) && Ascending(ys, level)
    ensures PairsAscending(CommonChildren(xs, ys, level), level)
    decreases |xs| + |ys|
  {
    if xs == [] || ys == [] {
    } else if Key(xs[0], level) == Key(ys[0], level) {
      AscendingTail(xs, level);
      AscendingTail(ys, level);
      CommonChildrenAscending(xs[1..], ys[1..], level);
      PrependAscending(Pair(xs[0], ys[0]), CommonChildren(xs[1..], ys[1..], level), level);
    } else if Key(xs[0], level) < Key(ys[0], level) {
      AscendingTail(xs, level);
      CommonChildrenAscending(xs[1..], ys, level);
    } else {
      AscendingTail(ys, level);
      CommonChildrenAscending(xs, ys[1..], level);
    }
  }

  /** Each pair with its two bins exchanged. */
  function Swapped(ps: seq<Pair>): (r: seq<Pair>)
  {
    seq(|ps|, k requires 0 <= k < |ps| => Pair(ps[k].second, ps[k].first))
  }

  /** Merging the lists the other way round finds the same pairs, each one swapped. */
  lemma {:induction false} CommonChildrenSymmetric(xs: seq<Bin>, ys: seq<Bin>, level: nat)
    requires Reaches(xs, level) && Reaches(ys, level)
    ensures CommonChildren(ys, xs, level) == Swapped(CommonChildren(xs, ys, level))
    decreases |xs| + |ys|
  {
    if xs == [] || ys == [] {
    } else if Key(xs[0], level) == Key(ys[0], level) {
      CommonChildrenSymmetric(xs[1..], ys[1..], level);
      var rest := CommonChildren(xs[1..], ys[1..], level);
      assert Swapped([Pair(xs[0], ys[0])] + rest) == [Pair(ys[0], xs[0])] + Swapped(rest);
    } else if Key(xs[0], level) < Key(ys[0], level) {
      CommonChildrenSymmetric(xs[1..], ys, level);
    } else {
      CommonChildrenSymmetric(xs, ys[1..], level);
    }
  }
}
