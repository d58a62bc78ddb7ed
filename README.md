# Pyramid match kernel

A Dafny model of the matching engine of libpmk's `PyramidMatcher`. The engine takes two
multi-resolution histograms ("pyramids"). Each is a tree of bins with an index path, a point
count and a region size. It walks both trees in lock-step and returns either a weighted
similarity or a cost.

A pair of bins with the same index path in both pyramids is said to be *matched*. Each matched
pair contributes its *net intersection*: the smaller of the two counts, minus the part already
matched by its common children. This amount is weighted by `1 / (1 + bin size)` for the
similarity and by the bin size for the cost.

The files are:

- `histogram.dfy` (module `Histograms`) describes the input trees. Bins form an immutable tree
  value. Its children are listed in the order of the first-child / next-sibling links.
  `Valid()` states what the tree builder guarantees:
  - counts and sizes are nonnegative;
  - each child's path extends its parent's by one selector;
  - sibling lists are ascending on their last selector.
- `merge.dfy` (module `ChildMerge`) holds the sorted merge of two sibling lists as a recursive
  function, with its exactness, ordering and symmetry lemmas.
- `kernel.dfy` (module `MatchKernel`) defines the recursive specification. `Kernel` is a
  pair's own weighted net intersection plus the kernels of its common children. `SizesAgree`
  says the global-scheme size assertion holds at every matched pair. `PyramidMatch` combines
  the two. The file also proves symmetry and non-negativity.
- `matcher.dfy` (module `PyramidMatcher`) is the imperative algorithm:
  - the `todo` stack is a sequence of frames, each holding two bins, the `marked` flag, the
    `intersection_` ledger and the parent's stack slot;
  - the inner merge loop is `PushMatchingChildren`;
  - the second visit of a node is `FinishNode`;
  - the outer loop is `MatchPyramids`;
  - the two public wrappers reorder their arguments by bin count.

  `MatchPyramids` is proved equal to `PyramidMatch`. The proof uses a stack invariant: every
  node pairs bins at the same path, every node except the bottom one has an expanded parent
  below it, and every ledger plus what its children still on the stack will report equals the
  raw intersection of its common children.
- `scenarios.dfy` (module `Scenarios`) works through two small matches under the global scheme
  with the recursive definition.

The global-scheme `assert` on equal sizes is modelled as the error result `SizeMismatch`. The
traversal returns it at the first matched pair whose sizes differ (that is, the first such pair
it finalizes). The specification function returns it exactly when some matched pair's sizes
differ.

## Model

| member | source | states |
|---|---|---|
| ChildMerge.CommonChildren | trunk/src/libpmk-1.5/pyramids/pyramid-matcher.cc:81-97 | every emitted pair takes one child from each list, and the two children have equal selectors at `next_level` |
| ChildMerge.CommonChildrenExact | trunk/src/libpmk-1.5/pyramids/pyramid-matcher.cc:68-97 | for sorted sibling lists, a pair is emitted if and only if its two children come from the two lists and have the same selector: all matches are found and nothing else is pushed |
| ChildMerge.CommonChildrenAscending | trunk/src/libpmk-1.5/pyramids/pyramid-matcher.cc:81-97 | the emitted pairs are strictly ascending in selector, so no child pair is pushed twice |
| ChildMerge.CommonChildrenSymmetric | trunk/src/libpmk-1.5/pyramids/pyramid-matcher.cc:81-96 | merging the lists the other way round yields the same pairs, each one swapped |
| MatchKernel.Weight | trunk/src/libpmk-1.5/pyramids/pyramid-matcher.cc:118 | for a nonnegative bin size, the weight `1/(1+size)` lies in (0, 1] |
| MatchKernel.WeightAntitone | trunk/src/libpmk-1.5/pyramids/pyramid-matcher.cc:118 | a larger bin never gets a larger weight |
| MatchKernel.SizesAgreeSymmetric | trunk/src/libpmk-1.5/pyramids/pyramid-matcher.cc:109-113 | whether the size assertion holds does not depend on the order of the pyramids |
| MatchKernel.KernelSymmetric | trunk/src/libpmk-1.5/pyramids/pyramid-matcher.cc:81-135 | when the sizes agree, the score and cost of a pair of subtrees do not depend on their order |
| MatchKernel.PyramidMatchSymmetric | trunk/src/libpmk-1.5/pyramids/pyramid-matcher.cc:17-37 | matching two pyramids gives the same result, value or size mismatch, in either order |
| MatchKernel.CommonRawBounded | trunk/src/libpmk-1.5/pyramids/pyramid-matcher.cc:120-133 | the raw intersections of the common children together never exceed the total count of either sibling list |
| MatchKernel.NetNonNegative | trunk/src/libpmk-1.5/pyramids/pyramid-matcher.cc:130-133 | when every bin holds at least as many points as its children, the net intersection `intersection - intersection_` is nonnegative |
| MatchKernel.ContributionNonNegative | trunk/src/libpmk-1.5/pyramids/pyramid-matcher.cc:134-135 | a nonnegative net intersection at a nonnegative bin size adds nonnegative score and cost |
| MatchKernel.KernelNonNegative | trunk/src/libpmk-1.5/pyramids/pyramid-matcher.cc:130-135 | under the same count condition, the score and cost of every pair of subtrees are nonnegative |
| MatchKernel.PyramidMatchNonNegative | trunk/src/libpmk-1.5/pyramids/pyramid-matcher.cc:142-145 | under the same count condition, a successful match returns a nonnegative cost or similarity |
| MatchKernel.RootOnlyOverlap | trunk/src/libpmk-1.5/pyramids/pyramid-matcher.cc:81-135 | when the two roots have no child selector in common, only the root pair is scored, with its whole raw intersection |
| PyramidMatcher.PushMatchingChildren | trunk/src/libpmk-1.5/pyramids/pyramid-matcher.cc:72-97 | the merge loop appends to the stack exactly one fresh node per common child pair, in merge order, each with an empty ledger and with the current node as its parent |
| PyramidMatcher.CommonBinsBounded | trunk/src/libpmk-1.5/pyramids/pyramid-matcher.cc:81-97 | the common children found hold no more bins than the first sibling list, which bounds the work left (termination) |
| PyramidMatcher.ChildPathsAgree | trunk/src/libpmk-1.5/pyramids/pyramid-matcher.cc:50-88 | children found under two bins at the same path are at the same path in both pyramids |
| PyramidMatcher.InitialStack | trunk/src/libpmk-1.5/pyramids/pyramid-matcher.cc:43-48 | the stack holding only the root node satisfies the invariant, owes the whole kernel and owes every size assertion |
| PyramidMatcher.ExpandShape | trunk/src/libpmk-1.5/pyramids/pyramid-matcher.cc:50-98 | after a first visit, every node still pairs bins at the same path, and every non-bottom node has an expanded parent below it |
| PyramidMatcher.ExpandLedgers | trunk/src/libpmk-1.5/pyramids/pyramid-matcher.cc:65-98 | after a first visit, the stack invariant holds: the expanded node's empty ledger plus what its pushed children will report is its common children's raw intersection |
| PyramidMatcher.ExpandAbstractions | trunk/src/libpmk-1.5/pyramids/pyramid-matcher.cc:67-98 | a first visit leaves the pending score, the pending cost and the pending size assertions unchanged, and strictly reduces the work left |
| PyramidMatcher.FinalizeAbstractions | trunk/src/libpmk-1.5/pyramids/pyramid-matcher.cc:99-138 | on the second visit the children are all finalized, so the ledger equals the sum of the common children's raw intersections; popping moves the node's own contribution and size assertion out of what is pending and reduces the work left |
| PyramidMatcher.FinalizeInv | trunk/src/libpmk-1.5/pyramids/pyramid-matcher.cc:124-138 | reporting the raw intersection into the parent's ledger and popping the node keeps the stack invariant |
| PyramidMatcher.OwnOfNode | trunk/src/libpmk-1.5/pyramids/pyramid-matcher.cc:109-135 | the bin size (GLOBAL: the first size; LOCAL: the sum), the weight `1/(1+size)` and the net intersection make up exactly the node's own term of the kernel |
| PyramidMatcher.FinishNode | trunk/src/libpmk-1.5/pyramids/pyramid-matcher.cc:109-138 | the second visit reports the RAW intersection to the parent before subtracting the ledger, adds the weighted net intersection to score and cost, and pops the node |
| PyramidMatcher.MatchPyramids | trunk/src/libpmk-1.5/pyramids/pyramid-matcher.cc:39-146 | the traversal terminates. It returns the size mismatch exactly when some matched pair under GLOBAL has unequal sizes; otherwise it returns the cost (COST) or the score (SIMILARITY) of the recursive kernel |
| PyramidMatcher.GetPyramidMatchCost | trunk/src/libpmk-1.5/pyramids/pyramid-matcher.cc:17-26 | the result is the cost of matching `first` against `second`, whichever order the bin counts choose |
| PyramidMatcher.GetPyramidMatchSimilarity | trunk/src/libpmk-1.5/pyramids/pyramid-matcher.cc:28-37 | the result is the similarity of matching `first` against `second`, whichever order the bin counts choose |
| Scenarios.OneLevelMatch | trunk/src/libpmk-1.5/pyramids/pyramid-matcher.cc:109-145 | roots with counts 3 and 5 and size 2 under GLOBAL: similarity 1, cost 6 |
| Scenarios.ChildMatch | trunk/src/libpmk-1.5/pyramids/pyramid-matcher.cc:109-135 | a leaf pair with counts 4 and 6 and size 1 contributes similarity 2 and cost 4 |
| Scenarios.RootOwn | trunk/src/libpmk-1.5/pyramids/pyramid-matcher.cc:120-135 | roots with 10 points each and size 4, above a child pair with raw intersection 4, keep net 6 and contribute similarity 1.2 and cost 24 |
| Scenarios.TwoLevelKernel | trunk/src/libpmk-1.5/pyramids/pyramid-matcher.cc:54-140 | the two-level example yields similarity 3.2 and cost 28 in total |
| Scenarios.TwoLevelMatch | trunk/src/libpmk-1.5/pyramids/pyramid-matcher.cc:142-145 | both two-level pyramids are valid, and matching them returns similarity 3.2 and cost 28 |

## Left out

- trunk/src/common/mkl_math.cpp is not part of this model. It is a matrix-multiply benchmark: float loops, foreign BLAS calls, `malloc`/`free`, `rand()` and timing output.
- Histogram and bin construction are not modelled. The trees are inputs with the properties listed in `Histograms.Valid`. Their headers are not part of this model.
- Arithmetic is over mathematical reals, not IEEE doubles, so rounding is not modelled.
- The `new`/`delete` lifetime of `MatchNode` records is not modelled. Nodes are stack slots, and the parent pointer is a slot index.
- Bins are a tree value. The child and sibling pointers become a sequence of children, so pointer aliasing is not modelled.
- `GetNumBins` is modelled only for its role in ordering the arguments of the wrappers.
- In builds with `NDEBUG` the size assertion is compiled out and the first size is used silently. The model only covers the asserting build, where a mismatch is the error result `SizeMismatch`.
- The self-match property (a pyramid matches itself at least as well as any pyramid with smaller counts) is not proved. It holds only when child bins are never larger than their parents, and the trees are not promised that.
- `FinishNode` is the second-visit branch of the loop body (source lines 99-139), split out as a method of its own. The loop calls it only after the size check has passed.
