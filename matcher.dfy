/**
 * The pyramid matcher: an iterative, post-order walk of both trees in
 * lock-step over an explicit stack of match nodes, proved to compute the
 * recursive kernel of module MatchKernel.
 */
module PyramidMatcher {
  import opened Histograms
  import opened ChildMerge
  import opened MatchKernel

  datatype Option<T> = None | Some(value: T)

  /**
   * A match node on the `todo` stack: a bin of each pyramid, whether its
   * children have been pushed yet, the raw intersection its finalized
   * children have reported so far, and the stack slot of its parent node.
   */
  datatype Frame = Frame(first: Bin, second: Bin, marked: bool, ledger: real, parent: Option<nat>)

  /** The two bins of a node are well formed and sit at the same path. */
  predicate FrameOk(f: Frame)
  {
    Matchable(f.first, f.second) && f.first.index == f.second.index
  }

  /** Fresh, unexpanded nodes for the given pairs, all parented to `slot`. */
  function FramesOf(ps: seq<Pair>, slot: nat): seq<Frame>
  {
    seq(|ps|, k requires 0 <= k < |ps| => Fresh(ps[k], slot))
  }

  /** An unexpanded node for a pair, with an empty ledger. */
  function Fresh(p: Pair, slot: nat): Frame
  {
    Frame(p.first, p.second, false, 0.0, Some(slot))
  }

  // ---------------------------------------------------------------------------
  // The sorted merge of the child lists (the inner loop of an expansion)

  /**
   * Walks both child lists in step and appends to `todo` one fresh node per
   * pair of children with equal last selector, in merge order.
   */
  method PushMatchingChildren(todo: seq<Frame>, xs: seq<Bin>, ys: seq<Bin>, level: nat, slot: nat)
    returns (out: seq<Frame>)
    requires Reaches(xs, level) && Reaches(ys, level)
    ensures out == todo + FramesOf(CommonChildren(xs, ys, level), slot)
  {
    out := todo;
    ghost var found: seq<Pair> := [];
    var i, j := 0, 0;
    while i < |xs| && j < |ys|
      invariant 0 <= i <= |xs| && 0 <= j <= |ys|
      invariant CommonChildren(xs, ys, level) == found + CommonChildren(xs[i..], ys[j..], level)
      invariant out == todo + FramesOf(found, slot)
      decreases |xs| - i + |ys| - j
    {
      var nextFirstIndex := xs[i].index[level];
      var nextSecondIndex := ys[j].index[level];
      assert xs[i..][1..] == xs[i + 1..] && ys[j..][1..] == ys[j + 1..];
      if nextFirstIndex == nextSecondIndex {
        var nextNode := Frame(xs[i], ys[j], false, 0.0, Some(slot));
        assert FramesOf(found + [Pair(xs[i], ys[j])], slot) == FramesOf(found, slot) + [nextNode];
        found := found + [Pair(xs[i], ys[j])];
        i, j := i + 1, j + 1;
        out := out + [nextNode];
      } else if nextFirstIndex < nextSecondIndex {
        i := i + 1;
      } else {
        j := j + 1;
      }
    }
  }

  // ---------------------------------------------------------------------------
  // Abstractions of the stack

  predicate AllFramesOk(st: seq<Frame>)
  {
    forall k :: 0 <= k < |st| ==> FrameOk(st[k])
  }

  /**
   * What a node still has to add to the aggregates: everything below and at
   * it when unexpanded, only its own contribution once its children are on
   * the stack above it.
   */
  ghost function Pending(f: Frame, scheme: BinWeightScheme): Totals
    requires FrameOk(f)
  {
    if f.marked then Own(f.first, f.second, scheme) else Kernel(f.first, f.second, scheme)
  }

  ghost function StackPending(st: seq<Frame>, scheme: BinWeightScheme): Totals
    requires AllFramesOk(st)
  {
    if st == [] then Zero
    else StackPending(st[..|st| - 1], scheme).Plus(Pending(st[|st| - 1], scheme))
  }

  /** The size assertions still to be made for the nodes of the stack. */
  ghost predicate StackAgrees(st: seq<Frame>, scheme: BinWeightScheme)
    requires AllFramesOk(st)
  {
    st == [] ||
      var f := st[|st| - 1];
      && StackAgrees(st[..|st| - 1], scheme)
      && if f.marked then OwnAgree(f.first, f.second, scheme) else SizesAgree(f.first, f.second, scheme)
  }

  /** Raw intersection that the nodes on the stack whose parent is slot `i` will still report. */
  ghost function PendingMass(st: seq<Frame>, i: nat): real
  {
    if st == [] then 0.0
    else
      var f := st[|st| - 1];
      PendingMass(st[..|st| - 1], i) + if f.parent == Some(i) then Raw(f.first, f.second) else 0.0
  }

  /** Termination measure: two visits per node still to be pushed, one per node awaiting finalization. */
  ghost function StackWork(st: seq<Frame>): nat
  {
    if st == [] then 0
    else
      var f := st[|st| - 1];
      StackWork(st[..|st| - 1]) + if f.marked then 1 else 2 * NumBins(f.first)
  }
  /**
   * Node `k` has a parent exactly when it is not the bottom node, and that
   * parent sits below it and has been expanded.
   */
  ghost predicate ParentBelow(st: seq<Frame>, k: nat)
    requires k < |st|
  {
    && (st[k].parent.None? <==> k == 0)
    && (st[k].parent.Some? ==> st[k].parent.value < k && st[st[k].parent.value].marked)
  }

  ghost predicate ParentsBelow(st: seq<Frame>)
  {
    forall k :: 0 <= k < |st| ==> ParentBelow(st, k)
  }

  /**
   * The ledger of node `i` plus what its children still on the stack will
   * report is the raw intersection of all its common children once it is
   * expanded, and nothing before.
   */
  ghost predicate LedgerBalanced(st: seq<Frame>, i: nat)
    requires i < |st| && FrameOk(st[i])
  {
    st[i].ledger + PendingMass(st, i) == if st[i].marked then ChildRaw(st[i].first, st[i].second) else 0.0
  }

  ghost predicate LedgersBalanced(st: seq<Frame>)
    requires AllFramesOk(st)
  {
    forall i :: 0 <= i < |st| ==> LedgerBalanced(st, i)
  }

  /**
   * The invariant of the `todo` stack: every node pairs two bins at the same
   * path, every node but the bottom one has an expanded parent below it, and
   * every ledger is balanced.
   */
  ghost predicate StackInv(st: seq<Frame>)
  {
    AllFramesOk(st) && ParentsBelow(st) && LedgersBalanced(st)
  }

  // ---------------------------------------------------------------------------
  // Facts about the stack abstractions

  /** Two frames that differ at most in their ledgers. */
  predicate SameSkeleton(f: Frame, g: Frame)
  {
    f.first == g.first && f.second == g.second && f.marked == g.marked && f.parent == g.parent
  }

  /** Ledgers do not enter what is pending, the size assertions or the work left. */
  lemma {:induction false} LedgersIrrelevant(s: seq<Frame>, t: seq<Frame>, scheme: BinWeightScheme)
    requires |s| == |t| && forall k :: 0 <= k < |s| ==> SameSkeleton(s[k], t[k])
    requires AllFramesOk(s)
    ensures AllFramesOk(t)
    ensures StackPending(s, scheme) == StackPending(t, scheme)
    ensures StackAgrees(s, scheme) == StackAgrees(t, scheme)
    ensures StackWork(s) == StackWork(t)
  {
    if s != [] {
      LedgersIrrelevant(s[..|s| - 1], t[..|t| - 1], scheme);
    }
  }

  /** Ledgers do not enter what the nodes on the stack will still report. */
  lemma {:induction false} LedgersIrrelevantToMass(s: seq<Frame>, t: seq<Frame>, i: nat)
    requires |s| == |t| && forall k :: 0 <= k < |s| ==> SameSkeleton(s[k], t[k])
    ensures PendingMass(s, i) == PendingMass(t, i)
  {
    if s != [] {
      LedgersIrrelevantToMass(s[..|s| - 1], t[..|t| - 1], i);
    }
  }

  /** No node on the stack names slot `i` as its parent. */
  lemma {:induction false} PendingMassNone(st: seq<Frame>, i: nat)
    requires forall k :: 0 <= k < |st| ==> st[k].parent != Some(i)
    ensures PendingMass(st, i) == 0.0
  {
    if st != [] {
      PendingMassNone(st[..|st| - 1], i);
    }
  }

  function SumFirstBins(ps: seq<Pair>): nat
  {
    if ps == [] then 0 else NumBins(ps[0].first) + SumFirstBins(ps[1..])
  }

  lemma {:induction false} SumFirstBinsLast(ps: seq<Pair>)
    requires ps != []
    ensures SumFirstBins(ps) == SumFirstBins(ps[..|ps| - 1]) + NumBins(ps[|ps| - 1].first)
  {
    if |ps| > 1 {
      SumFirstBinsLast(ps[1..]);
      assert ps[1..][..|ps| - 2] == ps[..|ps| - 1][1..];
    }
  }

  /** The common children of a list are never more bins than the list itself. */
  lemma {:induction false} CommonBinsBounded(xs: seq<Bin>, ys: seq<Bin>, level: nat)
    requires Reaches(xs, level) && Reaches(ys, level)
    ensures SumFirstBins(CommonChildren(xs, ys, level)) <= SumBins(xs)
    decreases |xs| + |ys|
  {
    if xs == [] || ys == [] {
    } else if Key(xs[0], level) == Key(ys[0], level) {
      CommonBinsBounded(xs[1..], ys[1..], level);
      var r := CommonChildren(xs, ys, level);
      assert r[1..] == CommonChildren(xs[1..], ys[1..], level);
    } else if Key(xs[0], level) < Key(ys[0], level) {
      CommonBinsBounded(xs[1..], ys, level);
    } else {
      CommonBinsBounded(xs, ys[1..], level);
    }
  }

  /** Pushing one more fresh node is appending it to the pushed ones. */
  lemma PushLast(st: seq<Frame>, ps: seq<Pair>, slot: nat)
    requires ps != []
    ensures var s := st + FramesOf(ps, slot); var n := |ps| - 1;
      && |s| == |st| + |ps|
      && s[..|s| - 1] == st + FramesOf(ps[..n], slot)
      && s[|s| - 1] == Fresh(ps[n], slot)
  {
    var n := |ps| - 1;
    assert FramesOf(ps, slot) == FramesOf(ps[..n], slot) + [Fresh(ps[n], slot)];
  }

  /** Fresh nodes for common children are well formed nodes. */
  lemma PushOk(st: seq<Frame>, a: Bin, b: Bin, ps: seq<Pair>, slot: nat)
    requires AllFramesOk(st) && ChildPairsOf(a, b, ps)
    requires forall k :: 0 <= k < |ps| ==> ps[k].first.index == ps[k].second.index
    ensures AllFramesOk(st + FramesOf(ps, slot))
  {
    var s := st + FramesOf(ps, slot);
    forall k | 0 <= k < |s| ensures FrameOk(s[k]) {
      if k >= |st| {
        assert s[k] == Fresh(ps[k - |st|], slot);
      }
    }
  }

  /** Pushing fresh nodes adds their pairs' kernels to what is pending. */
  lemma {:induction false} PushPending(st: seq<Frame>, a: Bin, b: Bin, ps: seq<Pair>, slot: nat, scheme: BinWeightScheme)
    requires AllFramesOk(st) && ChildPairsOf(a, b, ps)
    requires forall k :: 0 <= k < |ps| ==> ps[k].first.index == ps[k].second.index
    ensures AllFramesOk(st + FramesOf(ps, slot))
    ensures StackPending(st + FramesOf(ps, slot), scheme) == StackPending(st, scheme).Plus(KernelSum(a, b, ps, scheme))
  {
    PushOk(st, a, b, ps, slot);
    if ps == [] {
      assert st + FramesOf(ps, slot) == st;
    } else {
      var n := |ps| - 1;
      PushLast(st, ps, slot);
      PushPending(st, a, b, ps[..n], slot, scheme);
    }
  }

  /** Pushing fresh nodes adds the size assertions of their subtrees. */
  lemma {:induction false} PushAgrees(st: seq<Frame>, a: Bin, b: Bin, ps: seq<Pair>, slot: nat, scheme: BinWeightScheme)
    requires AllFramesOk(st) && ChildPairsOf(a, b, ps)
    requires forall k :: 0 <= k < |ps| ==> ps[k].first.index == ps[k].second.index
    ensures AllFramesOk(st + FramesOf(ps, slot))
    ensures StackAgrees(st + FramesOf(ps, slot), scheme)
        == (StackAgrees(st, scheme) && forall k :: 0 <= k < |ps| ==> SizesAgree(ps[k].first, ps[k].second, scheme))
  {
    PushOk(st, a, b, ps, slot);
    if ps == [] {
      assert st + FramesOf(ps, slot) == st;
    } else {
      var n := |ps| - 1;
      PushLast(st, ps, slot);
      PushAgrees(st, a, b, ps[..n], slot, scheme);
      assert forall k :: 0 <= k < n ==> ps[..n][k] == ps[k];
    }
  }

  /** Pushing fresh nodes adds two visits per bin of their subtrees. */
  lemma {:induction false} PushWork(st: seq<Frame>, ps: seq<Pair>, slot: nat)
    ensures StackWork(st + FramesOf(ps, slot)) == StackWork(st) + 2 * SumFirstBins(ps)
  {
    if ps == [] {
      assert st + FramesOf(ps, slot) == st;
    } else {
      var n := |ps| - 1;
      PushLast(st, ps, slot);
      PushWork(st, ps[..n], slot);
      SumFirstBinsLast(ps);
    }
  }

  /** Pushing fresh nodes parented to `slot` adds their raw intersections to what `slot` still expects. */
  lemma {:induction false} PushMass(st: seq<Frame>, ps: seq<Pair>, slot: nat, i: nat)
    ensures PendingMass(st + FramesOf(ps, slot), i)
         == PendingMass(st, i) + if i == slot then SumRaw(ps) else 0.0
  {
    if ps == [] {
      assert st + FramesOf(ps, slot) == st;
    } else {
      var n := |ps| - 1;
      PushLast(st, ps, slot);
      PushMass(st, ps[..n], slot, i);
    }
  }

  /** Children found by the merge under two bins at the same path are at the same path too. */
  lemma ChildPathsAgree(a: Bin, b: Bin)
    requires Matchable(a, b) && a.index == b.index
    ensures var cs := ChildPairs(a, b);
      forall k :: 0 <= k < |cs| ==> cs[k].first.index == cs[k].second.index
  {
    var cs := ChildPairs(a, b);
    forall k | 0 <= k < |cs|
      ensures cs[k].first.index == cs[k].second.index
    {
      var x, y := cs[k].first, cs[k].second;
      ChildrenWellFormed(a);
      ChildrenWellFormed(b);
      assert x.index == x.index[..|a.index|] + [x.index[|a.index|]];
      assert y.index == y.index[..|b.index|] + [y.index[|b.index|]];
    }
  }

  // ---------------------------------------------------------------------------
  // The two visits of a node

  /** Parents sit below their children. */
  lemma ParentIndexBelow(st: seq<Frame>)
    requires ParentsBelow(st)
    ensures forall k | 0 <= k < |st| && st[k].parent.Some? :: st[k].parent.value < k
  {
    forall k | 0 <= k < |st| && st[k].parent.Some? ensures st[k].parent.value < k {
      assert ParentBelow(st, k);
    }
  }

  /** An unexpanded node, and the top node, have no children on the stack. */
  lemma NoChildren(st: seq<Frame>, i: nat)
    requires ParentsBelow(st) && i < |st| && (!st[i].marked || i == |st| - 1)
    ensures PendingMass(st, i) == 0.0
  {
    forall k | 0 <= k < |st| ensures st[k].parent != Some(i) {
      assert ParentBelow(st, k);
    }
    PendingMassNone(st, i);
  }

  /** The top node of the stack with its children marked as pushed. */
  ghost function MarkTop(st: seq<Frame>): seq<Frame>
    requires st != []
  {
    st[|st| - 1 := st[|st| - 1].(marked := true)]
  }

  /** The stack after the first visit of its top node: its common children pushed, the node marked. */
  ghost function Expanded(st: seq<Frame>): seq<Frame>
    requires st != [] && FrameOk(st[|st| - 1])
  {
    var t := |st| - 1;
    MarkTop(st) + FramesOf(ChildPairs(st[t].first, st[t].second), t)
  }

  /** Marking the top node commutes with pushing nodes above it. */
  lemma MarkBelowPush(st: seq<Frame>, fs: seq<Frame>)
    requires st != []
    ensures var t := |st| - 1; (st + fs)[t := st[t].(marked := true)] == MarkTop(st) + fs
  {
  }

  /** Marking the top node trades its whole kernel for its own contribution. */
  lemma MarkTopAbstractions(st: seq<Frame>, scheme: BinWeightScheme)
    requires st != [] && AllFramesOk(st) && !st[|st| - 1].marked
    ensures var t := |st| - 1; var top := st[t]; var m := MarkTop(st);
      && AllFramesOk(m)
      && StackPending(m, scheme) == StackPending(st[..t], scheme).Plus(Own(top.first, top.second, scheme))
      && StackAgrees(m, scheme) == (StackAgrees(st[..t], scheme) && OwnAgree(top.first, top.second, scheme))
      && StackWork(m) == StackWork(st[..t]) + 1
      && forall i :: PendingMass(m, i) == PendingMass(st, i)
  {
    var t := |st| - 1;
    assert MarkTop(st)[..t] == st[..t];
  }

  /** The first visit keeps what is pending and the size assertions still to be made, and uses up work. */
  lemma ExpandAbstractions(st: seq<Frame>, scheme: BinWeightScheme)
    requires StackInv(st) && st != [] && !st[|st| - 1].marked
    ensures AllFramesOk(Expanded(st))
    ensures StackPending(Expanded(st), scheme) == StackPending(st, scheme)
    ensures StackAgrees(Expanded(st), scheme) == StackAgrees(st, scheme)
    ensures StackWork(Expanded(st)) < StackWork(st)
  {
    var t := |st| - 1;
    var top := st[t];
    var cs := ChildPairs(top.first, top.second);
    MarkTopAbstractions(st, scheme);
    ChildPathsAgree(top.first, top.second);
    PushPending(MarkTop(st), top.first, top.second, cs, t, scheme);
    PushAgrees(MarkTop(st), top.first, top.second, cs, t, scheme);
    PushWork(MarkTop(st), cs, t);
    CommonBinsBounded(top.first.children, top.second.children, |top.first.index|);
  }

  /** After the first visit the nodes are still well formed and correctly parented. */
  lemma ExpandShape(st: seq<Frame>)
    requires StackInv(st) && st != [] && !st[|st| - 1].marked
    ensures AllFramesOk(Expanded(st)) && ParentsBelow(Expanded(st))
  {
    var t := |st| - 1;
    var top := st[t];
    var cs := ChildPairs(top.first, top.second);
    var after := Expanded(st);
    ChildPathsAgree(top.first, top.second);
    assert AllFramesOk(MarkTop(st));
    PushOk(MarkTop(st), top.first, top.second, cs, t);
    assert forall k :: 0 <= k < t ==> after[k] == st[k];
    assert after[t] == top.(marked := true);
    assert forall k :: t < k < |after| ==> after[k] == Fresh(cs[k - t - 1], t);
    forall k | 0 <= k < |after| ensures ParentBelow(after, k) {
      if k <= t {
        assert ParentBelow(st, k);
      }
    }
  }

  /** After the first visit the expanded node expects exactly its children's raw intersections. */
  lemma ExpandLedgers(st: seq<Frame>)
    requires StackInv(st) && st != [] && !st[|st| - 1].marked
    ensures StackInv(Expanded(st))
  {
    var t := |st| - 1;
    var top := st[t];
    var cs := ChildPairs(top.first, top.second);
    var after := Expanded(st);
    ExpandShape(st);
    assert forall k :: 0 <= k < t ==> after[k] == st[k];
    assert after[t] == top.(marked := true);
    assert forall k :: t < k < |after| ==> after[k] == Fresh(cs[k - t - 1], t);
    forall i | 0 <= i < |after| ensures LedgerBalanced(after, i) {
      PushMass(MarkTop(st), cs, t, i);
      MarkTopMass(st, i);
      if i < t {
        assert LedgerBalanced(st, i);
      } else if i == t {
        NoChildren(st, t);
        assert LedgerBalanced(st, t);
      } else {
        NoChildren(after, i);
      }
    }
  }

  lemma MarkTopMass(st: seq<Frame>, i: nat)
    requires st != []
    ensures PendingMass(MarkTop(st), i) == PendingMass(st, i)
  {
    assert MarkTop(st)[..|st| - 1] == st[..|st| - 1];
  }

  /** The stack after the second visit of its top node: its raw intersection reported to its parent, the node popped. */
  ghost function Finalized(st: seq<Frame>): seq<Frame>
    requires st != [] && ParentBelow(st, |st| - 1)
  {
    var t := |st| - 1;
    var top := st[t];
    var reported :=
      if top.parent.Some? then
        var p := top.parent.value;
        st[p := st[p].(ledger := st[p].ledger + Raw(top.first, top.second))]
      else st;
    reported[..t]
  }

  /**
   * The second visit: by then every child pushed above the node has been
   * finalized, so its ledger holds exactly the raw intersection of its common
   * children; popping it moves its own contribution out of what is pending
   * and uses up one unit of work.
   */
  lemma FinalizeAbstractions(st: seq<Frame>, scheme: BinWeightScheme)
    requires StackInv(st) && st != [] && st[|st| - 1].marked
    ensures ParentBelow(st, |st| - 1)
    ensures var top := st[|st| - 1];
      && top.ledger == ChildRaw(top.first, top.second)
      && AllFramesOk(Finalized(st))
      && StackPending(st, scheme) == StackPending(Finalized(st), scheme).Plus(Own(top.first, top.second, scheme))
      && StackAgrees(st, scheme) == (StackAgrees(Finalized(st), scheme) && OwnAgree(top.first, top.second, scheme))
      && StackWork(Finalized(st)) < StackWork(st)
  {
    var t := |st| - 1;
    assert ParentBelow(st, t);
    NoChildren(st, t);
    assert LedgerBalanced(st, t);
    LedgersIrrelevant(st[..t], Finalized(st), scheme);
  }

  /** Popping the finalized node keeps the invariant of the stack. */
  lemma FinalizeInv(st: seq<Frame>)
    requires StackInv(st) && st != [] && st[|st| - 1].marked
    ensures ParentBelow(st, |st| - 1) && StackInv(Finalized(st))
  {
    var t := |st| - 1;
    var top := st[t];
    assert ParentBelow(st, t);
    var after := Finalized(st);
    assert forall k :: 0 <= k < t ==> SameSkeleton(st[..t][k], after[k]);
    assert AllFramesOk(after);
    forall k | 0 <= k < t ensures ParentBelow(after, k) {
      assert ParentBelow(st, k);
    }
    forall i | 0 <= i < t ensures LedgerBalanced(after, i) {
      LedgersIrrelevantToMass(st[..t], after, i);
      assert LedgerBalanced(st, i);
    }
  }

  /** The first visit of the top node, as the loop of the matcher sees it. */
  lemma ExpandStep(st: seq<Frame>, total: Totals, score: real, cost: real, agree: bool, scheme: BinWeightScheme)
    requires StackInv(st) && st != [] && !st[|st| - 1].marked
    requires total == Totals(score, cost).Plus(StackPending(st, scheme))
    requires agree == StackAgrees(st, scheme)
    ensures StackInv(Expanded(st))
    ensures total == Totals(score, cost).Plus(StackPending(Expanded(st), scheme))
    ensures agree == StackAgrees(Expanded(st), scheme)
    ensures StackWork(Expanded(st)) < StackWork(st)
  {
    ExpandAbstractions(st, scheme);
    ExpandLedgers(st);
  }

  /** The second visit of the top node, as the loop of the matcher sees it. */
  lemma FinalizeStep(st: seq<Frame>, total: Totals, score: real, cost: real, agree: bool, scheme: BinWeightScheme)
    requires StackInv(st) && st != [] && st[|st| - 1].marked
    requires total == Totals(score, cost).Plus(StackPending(st, scheme))
    requires agree == StackAgrees(st, scheme)
    ensures ParentBelow(st, |st| - 1)
    ensures var top := st[|st| - 1];
      && top.ledger == ChildRaw(top.first, top.second)
      && StackInv(Finalized(st))
      && total == Totals(score, cost).Plus(StackPending(Finalized(st), scheme).Plus(Own(top.first, top.second, scheme)))
      && agree == (StackAgrees(Finalized(st), scheme) && OwnAgree(top.first, top.second, scheme))
      && StackWork(Finalized(st)) < StackWork(st)
  {
    FinalizeAbstractions(st, scheme);
    FinalizeInv(st);
  }

  /** `Finalized` spelled out as the loop computes it for a node with a parent: report, then pop. */
  lemma ReportThenPop(st: seq<Frame>, p: nat, amount: real)
    requires st != [] && ParentBelow(st, |st| - 1)
    requires st[|st| - 1].parent == Some(p) && amount == Raw(st[|st| - 1].first, st[|st| - 1].second)
    ensures p < |st| && st[p := st[p].(ledger := st[p].ledger + amount)][..|st| - 1] == Finalized(st)
  {
  }

  /** `Finalized` spelled out for the bottom node, which has no parent to report to. */
  lemma PopBottom(st: seq<Frame>)
    requires st != [] && ParentBelow(st, |st| - 1) && st[|st| - 1].parent.None?
    ensures st[..|st| - 1] == Finalized(st)
  {
  }

  /** The bin size, weight and net intersection of the second visit make up the node's own contribution. */
  lemma OwnOfNode(a: Bin, b: Bin, scheme: BinWeightScheme, binSize: real, weight: real, net: real)
    requires Matchable(a, b)
    requires binSize == (if scheme == BinWeightGlobal then a.size else a.size + b.size)
    requires weight == 1.0 / (1.0 + binSize)
    requires net == (if a.count > b.count then b.count else a.count) - ChildRaw(a, b)
    ensures Own(a, b, scheme) == Totals(weight * net, binSize * net)
  {
  }

  /** Moving a node's own contribution from what is pending into the running totals. */
  lemma Regroup(total: Totals, before: Totals, after: Totals, rest: Totals, own: Totals)
    requires total == before.Plus(rest.Plus(own)) && after == before.Plus(own)
    ensures total == after.Plus(rest)
  {
  }

  /** The children of both bins of a node can be read at the next level. */
  lemma ChildrenReach(f: Frame)
    requires FrameOk(f)
    ensures Reaches(f.first.children, |f.first.index|) && Reaches(f.second.children, |f.first.index|)
  {
    ChildrenWellFormed(f.first);
    ChildrenWellFormed(f.second);
  }

  /** The stack holding only the node of the two roots. */
  lemma InitialStack(a: Bin, b: Bin, scheme: BinWeightScheme)
    requires Matchable(a, b) && a.index == b.index
    ensures var st := [Frame(a, b, false, 0.0, None)];
      && StackInv(st)
      && Kernel(a, b, scheme) == Totals(0.0, 0.0).Plus(StackPending(st, scheme))
      && SizesAgree(a, b, scheme) == StackAgrees(st, scheme)
  {
    var st := [Frame(a, b, false, 0.0, None)];
    assert st[..0] == [];
    assert ParentBelow(st, 0);
    PendingMassNone(st, 0);
    assert LedgerBalanced(st, 0);
  }

  // ---------------------------------------------------------------------------
  // The matcher

  /**
   * The second visit of a node whose size assertion holds: its net
   * intersection, weighted, goes into the totals, its raw intersection is
   * reported to its parent, and it is popped.
   */
  method FinishNode(todo: seq<Frame>, score: real, cost: real, scheme: BinWeightScheme)
    returns (todo': seq<Frame>, score': real, cost': real)
    requires todo != [] && ParentBelow(todo, |todo| - 1)
    requires var top := todo[|todo| - 1]; FrameOk(top) && top.ledger == ChildRaw(top.first, top.second)
    ensures todo' == Finalized(todo)
    ensures var top := todo[|todo| - 1];
      Totals(score', cost') == Totals(score, cost).Plus(Own(top.first, top.second, scheme))
  {
    var top := |todo| - 1;
    var current := todo[top];
    var binSize := if scheme == BinWeightGlobal then current.first.size
                   else current.first.size + current.second.size;
    var weight := 1.0 / (1.0 + binSize);
    var intersection := if current.first.count > current.second.count then current.second.count
                        else current.first.count;
    todo' := todo;
    if current.parent.Some? {
      var p := current.parent.value;
      ReportThenPop(todo, p, intersection);
      todo' := todo'[p := todo'[p].(ledger := todo'[p].ledger + intersection)];
    } else {
      PopBottom(todo);
    }
    intersection := intersection - current.ledger;
    OwnOfNode(current.first, current.second, scheme, binSize, weight, intersection);
    score' := score + weight * intersection;
    cost' := cost + binSize * intersection;
    todo' := todo'[..top];
  }

  /**
   * `MatchPyramids`: walks both pyramids and returns the cost or the
   * similarity; under the global scheme a matched pair of unequal sizes
   * fails the size assertion.
   */
  method MatchPyramids(first: Histogram, second: Histogram, returnType: MatchReturnType,
                       scheme: BinWeightScheme) returns (result: MatchResult)
    requires first.Valid() && second.Valid()
    ensures result == PyramidMatch(first, second, returnType, scheme)
  {
    var score, cost := 0.0, 0.0;
    var todo := [Frame(first.root, second.root, false, 0.0, None)];
    InitialStack(first.root, second.root, scheme);
    while todo != []
      invariant StackInv(todo)
      invariant Kernel(first.root, second.root, scheme) == Totals(score, cost).Plus(StackPending(todo, scheme))
      invariant SizesAgree(first.root, second.root, scheme) == StackAgrees(todo, scheme)
      decreases StackWork(todo)
    {
      var top := |todo| - 1;
      var current := todo[top];
      ghost var before := todo;
      if !current.marked {
        ExpandStep(todo, Kernel(first.root, second.root, scheme), score, cost,
                   SizesAgree(first.root, second.root, scheme), scheme);
        ghost var expanded := Expanded(todo);
        var nextLevel := |current.first.index|;
        ChildrenReach(current);
        todo := PushMatchingChildren(todo, current.first.children, current.second.children, nextLevel, top);
        todo := todo[top := current.(marked := true)];
        MarkBelowPush(before, FramesOf(ChildPairs(current.first, current.second), top));
      } else {
        FinalizeStep(todo, Kernel(first.root, second.root, scheme), score, cost,
                     SizesAgree(first.root, second.root, scheme), scheme);
        if scheme == BinWeightGlobal && current.first.size != current.second.size {
          return SizeMismatch;
        }
        ghost var totals := Totals(score, cost);
        todo, score, cost := FinishNode(todo, score, cost, scheme);
        Regroup(Kernel(first.root, second.root, scheme), totals, Totals(score, cost),
                StackPending(todo, scheme), Own(current.first, current.second, scheme));
      }
    }
    if returnType == Cost {
      return Matched(cost);
    }
    return Matched(score);
  }

  /** `GetPyramidMatchCost`: the histogram with fewer bins goes first; the result does not depend on it. */
  method GetPyramidMatchCost(first: Histogram, second: Histogram, scheme: BinWeightScheme)
    returns (result: MatchResult)
    requires first.Valid() && second.Valid()
    ensures result == PyramidMatch(first, second, Cost, scheme)
  {
    if first.GetNumBins() < second.GetNumBins() {
      result := MatchPyramids(first, second, Cost, scheme);
    } else {
      result := MatchPyramids(second, first, Cost, scheme);
      PyramidMatchSymmetric(second, first, Cost, scheme);
    }
  }

  /** `GetPyramidMatchSimilarity`: the histogram with fewer bins goes first; the result does not depend on it. */
  method GetPyramidMatchSimilarity(first: Histogram, second: Histogram, scheme: BinWeightScheme)
    returns (result: MatchResult)
    requires first.Valid() && second.Valid()
    ensures result == PyramidMatch(first, second, Similarity, scheme)
  {
    if first.GetNumBins() < second.GetNumBins() {
      result := MatchPyramids(first, second, Similarity, scheme);
    } else {
      result := MatchPyramids(second, first, Similarity, scheme);
      PyramidMatchSymmetric(second, first, Similarity, scheme);
    }
  }
}
