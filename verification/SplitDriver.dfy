/** The loop every memory module runs over the allocator: reset, split until nothing is left,
  * then check that every token was used. */
module SplitDriver {
  import opened Batches
  import opened BatchTokens
  import opened Sequences
  import opened SplitPlan
  import opened EqualSplit
  import opened SplitLaw
  import opened BatchAllocr

  /** Which split routine a memory module uses. */
  datatype SplitMode = Simple | BySequence | Equal(sequential: bool, nKeepTail: nat)

  /** The rows of a list of micro-batches, in order. */
  function RowsTo(ubs: seq<UBatch>, n: nat): seq<nat>
    requires n <= |ubs|
  {
    if n == 0 then [] else RowsTo(ubs, n - 1) + ubs[n - 1].idxs
  }

  lemma {:induction false} RowsToFront(a: seq<UBatch>, ub: UBatch, n: nat)
    requires n <= |a|
    ensures RowsTo(a + [ub], n) == RowsTo(a, n)
  {
    if n > 0 {
      RowsToFront(a, ub, n - 1);
    }
  }

  /** Every token once, and per sequence set in batch order. */
  ghost predicate Complete(sets: seq<SeqSet>, emitted: seq<nat>) {
    && NoDuplicates(emitted)
    && (forall i :: i in emitted <==> 0 <= i < |sets|)
    && forall s :: EmittedWhole(sets, emitted, s)
  }

  ghost predicate EmittedWhole(sets: seq<SeqSet>, emitted: seq<nat>, s: SeqSet) {
    Restrict(sets, emitted, s) == Members(sets, s)
  }

  /** When n_used reaches the batch size, the split is complete. */
  lemma AllUsedIsComplete(sets: seq<SeqSet>, used: seq<bool>, nUsed: nat, head: Heads, emitted: seq<nat>)
    requires InProgress(sets, used, nUsed, head, emitted)
    ensures nUsed <= |sets|
    ensures nUsed == |sets| <==> forall i | 0 <= i < |used| :: used[i]
    ensures nUsed == |sets| ==> Complete(sets, emitted)
  {
    CountBelowAll(used, |used|);
    if nUsed == |sets| {
      EmittedExactlyTheUsed(sets, used, head, emitted);
      forall s
        ensures EmittedWhole(sets, emitted, s)
      {
        assert EmittedToHead(sets, head, emitted, s);
        UnusedIffRemaining(sets, used, head, s);
        assert Members(sets, s)[..|Members(sets, s)|] == Members(sets, s);
      }
    }
  }

  // ---- the wanted outputs ------------------------------------------------------------

  lemma {:induction false} FlaggedToMembers(output: seq<bool>, xs: seq<nat>, n: nat)
    requires n <= |xs| && NoDuplicates(xs)
    ensures NoDuplicates(FlaggedTo(output, xs, n))
    ensures forall x :: x in FlaggedTo(output, xs, n) <==> x in xs[..n] && x < |output| && output[x]
  {
    if n > 0 {
      FlaggedToMembers(output, xs, n - 1);
      assert xs[..n] == xs[..n - 1] + [xs[n - 1]];
      assert xs[n - 1] !in xs[..n - 1];
    }
  }

  lemma {:induction false} NoDuplicatesCount(xs: seq<nat>, s: set<nat>)
    requires NoDuplicates(xs) && forall x :: x in xs <==> x in s
    ensures |xs| == |s|
  {
    if xs == [] {
      assert s == {};
    } else {
      var n := |xs| - 1;
      assert xs == xs[..n] + [xs[n]];
      assert xs[n] !in xs[..n];
      NoDuplicatesCount(xs[..n], s - {xs[n]});
    }
  }

  /** No split emits more than the batch holds. */
  lemma EmittedBounded(sets: seq<SeqSet>, used: seq<bool>, head: Heads, emitted: seq<nat>)
    requires Tracks(sets, used, head) && Ledger(sets, head, emitted)
    ensures |emitted| <= |sets|
  {
    EmittedExactlyTheUsed(sets, used, head, emitted);
    var s := set x | x in emitted;
    NoDuplicatesCount(emitted, s);
    assert s <= UpTo(|sets|);
    SmallerSet(s, UpTo(|sets|));
  }

  /** After a complete split `out_ids` lists each token flagged for output exactly once, and there
    * are as many as the batch asked for. */
  lemma OutIdsExactlyFlagged(output: seq<bool>, sets: seq<SeqSet>, emitted: seq<nat>, outIds: seq<nat>)
    requires |output| == |sets| && Complete(sets, emitted) && outIds == Flagged(output, emitted)
    ensures NoDuplicates(outIds)
    ensures forall i :: i in outIds <==> 0 <= i < |output| && output[i]
    ensures |outIds| == |set i | 0 <= i < |output| && output[i]|
  {
    FlaggedToMembers(output, emitted, |emitted|);
    assert emitted[..|emitted|] == emitted;
    var s: set<nat> := set i | 0 <= i < |output| && output[i];
    NoDuplicatesCount(outIds, s);
  }

  /** Positions inside one set never go back, over the whole split. */
  lemma EmittedInPositionOrder(b: Batch, head: Heads, emitted: seq<nat>, p: nat, q: nat)
    requires b.WellFormed() && b.PositionsOrdered(|b.seqIds|)
    requires Ledger(b.Sets(), head, emitted)
    requires p < q < |emitted| && b.Sets()[emitted[p]] == b.Sets()[emitted[q]]
    ensures b.pos[emitted[p]] <= b.pos[emitted[q]]
  {
    EmittedInBatchOrder(b.Sets(), head, emitted, p, q);
    var x := b.seqIds[emitted[p]][0];
    assert x in b.Sets()[emitted[p]];
    assert x in b.seqIds[emitted[q]];
  }

  /** A sequence whose tokens all carry one set goes out position by position: when the batch leaves no
    * gap in its positions, neither does the emission. */
  lemma EmittedWithoutGaps(b: Batch, head: Heads, emitted: seq<nat>, s: SeqSet, x: nat, k: nat)
    requires b.WellFormed() && b.PositionsOrdered(|b.seqIds|) && Gapless(b.PositionsOf(x))
    requires Ledger(b.Sets(), head, emitted) && k + 1 < At(head, s)
    requires x in s && forall i | 0 <= i < |b.seqIds| && x in b.seqIds[i] :: b.Sets()[i] == s
    ensures var r := Restrict(b.Sets(), emitted, s);
            && |r| == At(head, s) && r[k] < |b.pos| && r[k + 1] < |b.pos|
            && b.pos[r[k]] <= b.pos[r[k + 1]] <= b.pos[r[k]] + 1
  {
    assert EmittedToHead(b.Sets(), head, emitted, s);
    MembersWithoutGaps(b, s, x, k);
  }

  lemma MembersWithoutGaps(b: Batch, s: SeqSet, x: nat, k: nat)
    requires b.WellFormed() && b.PositionsOrdered(|b.seqIds|) && Gapless(b.PositionsOf(x))
    requires x in s && forall i | 0 <= i < |b.seqIds| && x in b.seqIds[i] :: b.Sets()[i] == s
    requires k + 1 < |Members(b.Sets(), s)|
    ensures var m := Members(b.Sets(), s);
            && m[k] < |b.pos| && m[k + 1] < |b.pos|
            && b.pos[m[k]] <= b.pos[m[k + 1]] <= b.pos[m[k]] + 1
  {
    MembersAt(b.Sets(), s, k);
    MembersAt(b.Sets(), s, k + 1);
    MembersIncreasing(b.Sets(), s, k, k + 1);
    var i, j := Members(b.Sets(), s)[k], Members(b.Sets(), s)[k + 1];
    assert x in b.Sets()[i] && x in b.Sets()[j];
    var q := b.pos[i] + 1;
    forall t | 0 <= t < |b.seqIds| && x in b.seqIds[t]
      ensures b.pos[t] <= b.pos[i] || b.pos[j] <= b.pos[t]
    {
      RankIndexes(b.Sets(), t);
      var r := Rank(b.Sets(), t);
      if r < k {
        MembersIncreasing(b.Sets(), s, r, k);
      } else if k + 1 < r {
        MembersIncreasing(b.Sets(), s, k + 1, r);
      }
    }
    assert b.pos[i] in b.PositionsOf(x) && b.pos[j] in b.PositionsOf(x);
    assert q !in b.PositionsOf(x) || b.pos[j] <= q;
  }

  // ---- tails kept whole --------------------------------------------------------------

  ghost function FromEnd(xs: seq<nat>, j: nat): nat
    requires j < |xs|
  {
    xs[|xs| - 1 - j]
  }

  /** The last (up to) keep of xs are all in idxs. */
  ghost predicate TailAmong(xs: seq<nat>, keep: nat, idxs: seq<nat>) {
    forall j: nat | j < keep && j < |xs| :: FromEnd(xs, j) in idxs
  }

  /** The last (up to) keep tokens of s are all rows of the one micro-batch. */
  ghost predicate TailIn(sets: seq<SeqSet>, s: SeqSet, keep: nat, idxs: seq<nat>) {
    TailAmong(Members(sets, s), keep, idxs)
  }

  ghost predicate TailInOne(sets: seq<SeqSet>, s: SeqSet, keep: nat, ubs: seq<UBatch>) {
    exists u :: 0 <= u < |ubs| && TailIn(sets, s, keep, ubs[u].idxs)
  }

  /** Between equal splits a set is untouched, has a full tail left, or went out whole-tailed. */
  ghost predicate TailSafe(sets: seq<SeqSet>, head: Heads, s: SeqSet, keep: nat, ubs: seq<UBatch>) {
    || At(head, s) == 0
    || keep <= Remaining(sets, head, s)
    || (Remaining(sets, head, s) == 0 && TailInOne(sets, s, keep, ubs))
  }

  lemma TailInOneGrows(sets: seq<SeqSet>, s: SeqSet, keep: nat, ubs: seq<UBatch>, ub: UBatch)
    requires TailInOne(sets, s, keep, ubs)
    ensures TailInOne(sets, s, keep, ubs + [ub])
  {
    var u :| 0 <= u < |ubs| && TailIn(sets, s, keep, ubs[u].idxs);
    assert (ubs + [ub])[u] == ubs[u];
  }

  /** A set finished by a plan had its whole tail left, so the tail goes out in this micro-batch. */
  lemma FinishedTailIn(sets: seq<SeqSet>, head: Heads, p: Plan, keep: nat, g: nat)
    requires PlanOk(sets, head, p) && g < |p.sets|
    requires At(head, p.sets[g]) == 0 || keep <= Remaining(sets, head, p.sets[g])
    requires Remaining(sets, head, p.sets[g]) == p.len
    ensures TailIn(sets, p.sets[g], keep, PlanIdxs(sets, head, p))
  {
    var m, h := Members(sets, p.sets[g]), At(head, p.sets[g]);
    forall j: nat | j < keep && j < |m|
      ensures FromEnd(m, j) in PlanIdxs(sets, head, p)
    {
      PlanIdxsGroups(sets, head, p, g, |m| - 1 - j - h);
    }
  }

  lemma TailStep(sets: seq<SeqSet>, head: Heads, p: Plan, keep: nat, ubs: seq<UBatch>, ub: UBatch, s: SeqSet)
    requires PlanOk(sets, head, p) && ub.idxs == PlanIdxs(sets, head, p)
    requires forall k | 0 <= k < |p.sets| :: TailKept(sets, head, p.sets[k], p.len, keep)
    requires TailSafe(sets, head, s, keep, ubs)
    ensures TailSafe(sets, Advance(head, p), s, keep, ubs + [ub])
  {
    AdvanceAt(head, p, s);
    if s in p.sets {
      var g :| 0 <= g < |p.sets| && p.sets[g] == s;
      assert TailKept(sets, head, p.sets[g], p.len, keep);
      if Remaining(sets, head, s) == p.len {
        FinishedTailIn(sets, head, p, keep, g);
        assert (ubs + [ub])[|ubs|] == ub;
      }
    } else if TailInOne(sets, s, keep, ubs) {
      TailInOneGrows(sets, s, keep, ubs, ub);
    }
  }

  lemma WholeTail(sets: seq<SeqSet>, used: seq<bool>, head: Heads, s: SeqSet, keep: nat, ubs: seq<UBatch>)
    requires s in sets && Tracks(sets, used, head) && TailSafe(sets, head, s, keep, ubs)
    requires forall i | 0 <= i < |used| :: used[i]
    ensures 0 < keep ==> TailInOne(sets, s, keep, ubs)
  {
    UnusedIffRemaining(sets, used, head, s);
    var i :| 0 <= i < |sets| && sets[i] == s;
    RankIndexes(sets, i);
    assert HeadInRange(sets, head, s);
  }

  // ---- the loop ----------------------------------------------------------------------

  /** A micro-batch copied its rows from the batch. */
  ghost predicate CarriesRows(b: Batch, ub: UBatch)
    requires b.WellFormed()
  {
    Carries(b, ub, ub.idxs, ub.nSeqs, ub.equalSeqs)
  }

  /** The rows of group g all carry the set s. */
  ghost predicate GroupCarries(sets: seq<SeqSet>, ub: UBatch, g: nat, s: SeqSet) {
    forall j: nat | j < ub.nSeqTokens :: RowCarries(sets, ub.idxs, ub.nSeqTokens, g, j, s)
  }

  ghost predicate RowCarries(sets: seq<SeqSet>, idxs: seq<nat>, len: nat, g: nat, j: nat, s: SeqSet) {
    var at := len * g + j;
    0 <= at < |idxs| && idxs[at] < |sets| && sets[idxs[at]] == s
  }

  /** A micro-batch of equally long groups, one sequence set per group and no two sharing a sequence;
    * in sequential mode, the groups are single sequences with consecutive ids. */
  ghost predicate Grouped(sets: seq<SeqSet>, ub: UBatch, sequential: bool, groups: seq<SeqSet>) {
    && ub.equalSeqs && 0 < ub.nSeqTokens && |groups| == ub.nSeqs && |ub.idxs| == ub.nSeqTokens * ub.nSeqs
    && Disjoint(groups)
    && (forall g: nat | g < |groups| :: GroupCarries(sets, ub, g, groups[g]))
    && (sequential ==> Consecutive(groups))
  }

  ghost predicate Consecutive(groups: seq<SeqSet>) {
    exists a: nat :: CountsFrom(groups, a)
  }

  ghost predicate CountsFrom(groups: seq<SeqSet>, a: nat) {
    forall g | 0 <= g < |groups| :: groups[g] == {a + g}
  }

  /** What each split routine promises about one micro-batch: its groups and its size. */
  ghost predicate Shaped(b: Batch, ub: UBatch, nUbatch: nat, mode: SplitMode)
    requires b.WellFormed()
  {
    match mode
    case Simple =>
      && !ub.equalSeqs && ub.nSeqs == |ub.idxs| && (|ub.idxs| == 1 || |ub.idxs| <= nUbatch)
      && forall k | 0 <= k < |ub.idxs| :: ub.idxs[k] == ub.idxs[0] + k
    case BySequence =>
      && ub.equalSeqs && ub.nSeqs == 1 && (|ub.idxs| == 1 || |ub.idxs| <= nUbatch)
      && forall k, l | 0 <= k && l == k + 1 < |ub.idxs| :: Narrows(b.Sets(), ub.idxs[k], ub.idxs[l])
    case Equal(sequential, _) =>
      && (exists groups :: Grouped(b.Sets(), ub, sequential, groups))
      && |ub.idxs| <= nUbatch + 1 && (b.IdsBelow(nUbatch) ==> |ub.idxs| <= nUbatch)
  }

  ghost predicate Narrows(sets: seq<SeqSet>, i: nat, next: nat) {
    i < next < |sets| && sets[next] <= sets[i]
  }

  /** Without coupling every token's set is its one sequence, so consecutive first ids make consecutive
    * groups. */
  lemma {:induction false} SingleSequences(b: Batch, used: seq<bool>, nUbatch: nat, k: nat)
    requires b.WellFormed() && !b.Coupled() && |used| == |b.seqIds|
    requires k < |Chosen(b.Sets(), FirstIds(b), used, nUbatch, true)|
    ensures var leaders := Leaders(b.Sets(), FirstIds(b), used, nUbatch, true);
            && leaders[0] < |b.seqIds|
            && Chosen(b.Sets(), FirstIds(b), used, nUbatch, true)[k] == {b.seqIds[leaders[0]][0] + k}
    decreases k
  {
    LeadersGood(b.Sets(), FirstIds(b), used, nUbatch, true);
    var leaders := Leaders(b.Sets(), FirstIds(b), used, nUbatch, true);
    var i := leaders[k];
    assert |b.seqIds[i]| == 1;
    assert b.Sets()[i] == {b.seqIds[i][0]};
    if k > 0 {
      SingleSequences(b, used, nUbatch, k - 1);
      var h := leaders[k - 1];
      assert b.seqIds[h][0] in b.Sets()[h];
      assert FirstIds(b)[i] == FirstIds(b)[h] + 1;
    }
  }

  lemma SameFactor(a: nat, c: nat, n: nat)
    requires 0 < n && a * n == c * n
    ensures a == c
  {
    StrictOrder(a, c, n);
    StrictOrder(c, a, n);
  }

  lemma StrictOrder(a: nat, c: nat, n: nat)
    requires 0 < n
    ensures a < c ==> a * n < c * n
  {
    if a < c {
      MultiplyOrder(a + 1, c, n);
    }
  }

  /** The rows of a plan over some of the chosen sets form the groups promised. */
  lemma PlanIsGrouped(b: Batch, head: Heads, p: Plan, chosen: seq<SeqSet>, ub: UBatch, sequential: bool)
    requires b.WellFormed() && PlanOk(b.Sets(), head, p) && p.sets != []
    requires p.sets <= chosen && Disjoint(chosen) && (sequential ==> Consecutive(chosen))
    requires Carries(b, ub, PlanIdxs(b.Sets(), head, p), |p.sets|, true)
    ensures Grouped(b.Sets(), ub, sequential, p.sets)
  {
    PlanIdxsLength(b.Sets(), head, p);
    SameFactor(ub.nSeqTokens, p.len, |p.sets|);
    forall g: nat | g < |p.sets|
      ensures GroupCarries(b.Sets(), ub, g, p.sets[g])
    {
      forall j: nat | j < p.len
        ensures RowCarries(b.Sets(), ub.idxs, p.len, g, j, p.sets[g])
      {
        PlanRowCarries(b.Sets(), head, p, g, j);
      }
    }
    if sequential {
      PrefixCounts(p.sets, chosen);
    }
    assert Disjoint(p.sets);
  }

  lemma PlanRowCarries(sets: seq<SeqSet>, head: Heads, p: Plan, g: nat, j: nat)
    requires Fits(sets, head, p) && g < |p.sets| && j < p.len
    ensures RowCarries(sets, PlanIdxs(sets, head, p), p.len, g, j, p.sets[g])
  {
    PlanIdxsGroups(sets, head, p, g, j);
    MembersAt(sets, p.sets[g], At(head, p.sets[g]) + j);
  }

  lemma PrefixCounts(part: seq<SeqSet>, groups: seq<SeqSet>)
    requires part <= groups && Consecutive(groups)
    ensures Consecutive(part)
  {
    var a: nat :| CountsFrom(groups, a);
    assert CountsFrom(part, a);
  }

  /** One equal split delivers its groups, within its size. */
  lemma EqualShape(b: Batch, used: seq<bool>, head: Heads, ub: UBatch, nUbatch: nat, mode: SplitMode)
    requires mode.Equal? && (mode.nKeepTail == 0 || mode.nKeepTail < nUbatch) && (mode.sequential ==> !b.Coupled())
    requires b.WellFormed() && Tracks(b.Sets(), used, head) && forall i | 0 <= i < |b.Sets()| :: b.Sets()[i] != {}
    requires exists i :: 0 <= i < |used| && !used[i]
    requires Chosen(b.Sets(), FirstIds(b), used, nUbatch, mode.sequential) != []
    requires var p := NextPlan(b.Sets(), FirstIds(b), used, head, nUbatch, mode.sequential, mode.nKeepTail);
             && PlanOk(b.Sets(), head, p)
             && Carries(b, ub, PlanIdxs(b.Sets(), head, p), |p.sets|, true)
    ensures Shaped(b, ub, nUbatch, mode)
  {
    var sets, first := b.Sets(), FirstIds(b);
    var chosen := Chosen(sets, first, used, nUbatch, mode.sequential);
    var p := NextPlan(sets, first, used, head, nUbatch, mode.sequential, mode.nKeepTail);
    NextPlanPromises(sets, first, used, head, nUbatch, mode.sequential, mode.nKeepTail);
    ChosenDisjoint(sets, first, used, nUbatch, mode.sequential);
    if mode.sequential {
      ChosenConsecutive(b, used, nUbatch);
    }
    PlanIsGrouped(b, head, p, chosen, ub, mode.sequential);
    if b.IdsBelow(nUbatch) {
      forall i | 0 <= i < |sets| ensures sets[i] <= UpTo(nUbatch) {
      }
      FewSequencesKeepTheBound(sets, first, used, head, nUbatch, mode.sequential, mode.nKeepTail, UpTo(nUbatch));
    }
  }

  lemma ChosenConsecutive(b: Batch, used: seq<bool>, nUbatch: nat)
    requires b.WellFormed() && !b.Coupled() && |used| == |b.seqIds|
    requires Chosen(b.Sets(), FirstIds(b), used, nUbatch, true) != []
    ensures Consecutive(Chosen(b.Sets(), FirstIds(b), used, nUbatch, true))
  {
    var chosen := Chosen(b.Sets(), FirstIds(b), used, nUbatch, true);
    SingleSequences(b, used, nUbatch, 0);
    var a := b.seqIds[Leaders(b.Sets(), FirstIds(b), used, nUbatch, true)[0]][0];
    forall g | 0 <= g < |chosen| ensures chosen[g] == {a + g} {
      SingleSequences(b, used, nUbatch, g);
    }
    assert CountsFrom(chosen, a);
  }

  /** A chain of shrinking sets is what a sequence split promises. */
  lemma ChainShape(b: Batch, used: seq<bool>, ub: UBatch, nUbatch: nat)
    requires b.WellFormed() && |used| == |b.seqIds| && SeqChain(b.Sets(), used, nUbatch, ub.idxs)
    requires ub.equalSeqs && ub.nSeqs == 1
    ensures Shaped(b, ub, nUbatch, BySequence)
  {
    forall k, l | 0 <= k && l == k + 1 < |ub.idxs|
      ensures Narrows(b.Sets(), ub.idxs[k], ub.idxs[l])
    {
      assert Link(b.Sets(), used, ub.idxs[k], ub.idxs[l]);
    }
  }

  /** Callers of an equal split with a kept tail guarantee n_ubatch > n_keep_tail. */
  predicate ModeAllowed(mode: SplitMode, nUbatch: nat) {
    mode.Equal? ==> mode.nKeepTail == 0 || mode.nKeepTail < nUbatch
  }

  /** A micro-batch as the compute side gets it. */
  ghost predicate Delivered(b: Batch, ub: UBatch, nUbatch: nat, mode: SplitMode)
    requires b.WellFormed()
  {
    ub.idxs != [] && CarriesRows(b, ub) && Shaped(b, ub, nUbatch, mode)
  }

  ghost predicate AllDelivered(b: Batch, ubs: seq<UBatch>, nUbatch: nat, mode: SplitMode)
    requires b.WellFormed()
  {
    forall u | 0 <= u < |ubs| :: Delivered(b, ubs[u], nUbatch, mode)
  }

  /** The flags once exactly the tokens in emitted have gone out. */
  function UsedBy(n: nat, emitted: seq<nat>): (used: seq<bool>)
    ensures |used| == n && forall i | 0 <= i < n :: used[i] <==> i in emitted
  {
    seq(n, i => i in emitted)
  }

  /** The rows idxs are what the split routine makes of the flags used: the longest window of consecutive
    * tokens from the first unused one, the chain of shrinking sets from there, or an equal split. */
  ghost predicate Follows(b: Batch, used: seq<bool>, idxs: seq<nat>, nUbatch: nat, mode: SplitMode)
    requires b.WellFormed() && |used| == |b.seqIds|
  {
    match mode
    case Simple => WindowOf(used, idxs, nUbatch)
    case BySequence => SeqChain(b.Sets(), used, nUbatch, idxs)
    case Equal(sequential, keep) => EqualSplitOf(b.Sets(), FirstIds(b), used, idxs, nUbatch, sequential, keep)
  }

  lemma {:induction false} ChainsAgree(sets: seq<SeqSet>, used: seq<bool>, nUbatch: nat, a: seq<nat>, b: seq<nat>,
                                       n: nat)
    requires |used| == |sets| && SeqChain(sets, used, nUbatch, a) && SeqChain(sets, used, nUbatch, b) && n <= |a|
    ensures n <= |b| && forall k | 0 <= k < n :: a[k] == b[k]
  {
    if n == 1 {
      assert a[0] == b[0] by {
        assert !used[a[0]] && !used[b[0]];
      }
    } else if n > 1 {
      ChainsAgree(sets, used, nUbatch, a, b, n - 1);
      ChainGoesOn(sets, used, nUbatch, a, b, n - 1);
    }
  }

  lemma ChainGoesOn(sets: seq<SeqSet>, used: seq<bool>, nUbatch: nat, a: seq<nat>, b: seq<nat>, n: nat)
    requires |used| == |sets| && SeqChain(sets, used, nUbatch, a) && SeqChain(sets, used, nUbatch, b)
    requires 0 < n < |a| && n <= |b| && a[n - 1] == b[n - 1]
    ensures n < |b| && a[n] == b[n]
  {
    assert Link(sets, used, a[n - 1], a[n]) && !used[a[n]];
    if n < |b| {
      assert Link(sets, used, b[n - 1], b[n]) && !used[b[n]];
    }
  }

  /** The split routines leave no choice. */
  lemma FollowsUnique(b: Batch, used: seq<bool>, x: seq<nat>, y: seq<nat>, nUbatch: nat, mode: SplitMode)
    requires b.WellFormed() && |used| == |b.seqIds|
    requires Follows(b, used, x, nUbatch, mode) && Follows(b, used, y, nUbatch, mode)
    ensures x == y
  {
    match mode
    case Simple =>
      assert x[0] == y[0] by {
        assert !used[x[0]] && !used[y[0]];
      }
    case BySequence =>
      ChainsAgree(b.Sets(), used, nUbatch, x, y, |x|);
      ChainsAgree(b.Sets(), used, nUbatch, y, x, |y|);
    case Equal(sequential, keep) =>
      EqualSplitUnique(b.Sets(), FirstIds(b), used, x, y, nUbatch, sequential, keep);
  }

  lemma FollowsTakesUnused(b: Batch, used: seq<bool>, x: seq<nat>, nUbatch: nat, mode: SplitMode)
    requires b.WellFormed() && |used| == |b.seqIds| && Follows(b, used, x, nUbatch, mode)
    ensures exists i :: 0 <= i < |used| && !used[i]
  {
    if mode.Equal? {
      var openers, n: nat, len: nat :|
        EqualSplitWith(b.Sets(), FirstIds(b), used, x, nUbatch, mode.sequential, mode.nKeepTail, openers, n, len);
      assert MayOpen(b.Sets(), FirstIds(b), used, openers, 0, openers[0], mode.sequential);
    } else {
      assert !used[x[0]];
    }
  }

  /** From the same rows both lists go on with the same ones. */
  ghost predicate GoOnAlike(a: seq<UBatch>, c: seq<UBatch>, n: nat)
    requires n < |a| && n < |c|
  {
    RowsTo(a, n) == RowsTo(c, n) ==> a[n].idxs == c[n].idxs
  }

  lemma {:induction false} SplitsAgree(a: seq<UBatch>, c: seq<UBatch>, n: nat)
    requires n <= |a| && n <= |c| && forall u: nat | u < |a| && u < |c| :: GoOnAlike(a, c, u)
    ensures RowsTo(a, n) == RowsTo(c, n) && forall u | 0 <= u < n :: a[u].idxs == c[u].idxs
  {
    if n > 0 {
      SplitsAgree(a, c, n - 1);
      assert GoOnAlike(a, c, n - 1);
    }
  }

  lemma AllGoOnAlike(b: Batch, a: seq<UBatch>, c: seq<UBatch>, nUbatch: nat, mode: SplitMode)
    requires b.WellFormed() && AllFollow(b, a, nUbatch, mode) && AllFollow(b, c, nUbatch, mode)
    ensures forall u: nat | u < |a| && u < |c| :: GoOnAlike(a, c, u)
  {
    forall u: nat | u < |a| && u < |c| ensures GoOnAlike(a, c, u) {
      assert FollowsBefore(b, a, u, nUbatch, mode) && FollowsBefore(b, c, u, nUbatch, mode);
      if RowsTo(a, u) == RowsTo(c, u) {
        FollowsUnique(b, UsedBy(|b.seqIds|, RowsTo(a, u)), a[u].idxs, c[u].idxs, nUbatch, mode);
      }
    }
  }

  lemma SomeNotGone(b: Batch, c: seq<UBatch>, nUbatch: nat, mode: SplitMode, n: nat)
    requires b.WellFormed() && AllFollow(b, c, nUbatch, mode) && n < |c|
    ensures exists i :: 0 <= i < |b.seqIds| && i !in RowsTo(c, n)
  {
    assert FollowsBefore(b, c, n, nUbatch, mode);
    FollowsTakesUnused(b, UsedBy(|b.seqIds|, RowsTo(c, n)), c[n].idxs, nUbatch, mode);
  }

  lemma SplitNotShorter(b: Batch, a: seq<UBatch>, c: seq<UBatch>, nUbatch: nat, mode: SplitMode)
    requires b.WellFormed() && AllFollow(b, c, nUbatch, mode)
    requires forall u: nat | u < |a| && u < |c| :: GoOnAlike(a, c, u)
    requires forall i | 0 <= i < |b.seqIds| :: i in RowsTo(a, |a|)
    ensures |c| <= |a|
  {
    if |a| < |c| {
      SplitsAgree(a, c, |a|);
      SomeNotGone(b, c, nUbatch, mode, |a|);
    }
  }

  ghost predicate SameSplit(a: seq<UBatch>, c: seq<UBatch>) {
    |a| == |c| && forall u | 0 <= u < |a| :: a[u].idxs == c[u].idxs
  }

  lemma SameRows(a: seq<UBatch>, c: seq<UBatch>)
    requires |a| == |c| && forall u: nat | u < |a| && u < |c| :: GoOnAlike(a, c, u)
    ensures SameSplit(a, c)
  {
    SplitsAgree(a, c, |a|);
  }

  /** A batch has one split: the micro-batches of any two complete ones are the same. */
  lemma SplitIsDetermined(b: Batch, a: seq<UBatch>, c: seq<UBatch>, nUbatch: nat, mode: SplitMode)
    requires b.WellFormed() && AllFollow(b, a, nUbatch, mode) && AllFollow(b, c, nUbatch, mode)
    requires Complete(b.Sets(), RowsTo(a, |a|)) && Complete(b.Sets(), RowsTo(c, |c|))
    ensures SameSplit(a, c)
  {
    AllGoOnAlike(b, a, c, nUbatch, mode);
    SplitNotShorter(b, a, c, nUbatch, mode);
    AllGoOnAlike(b, c, a, nUbatch, mode);
    SplitNotShorter(b, c, a, nUbatch, mode);
    SameRows(a, c);
  }

  /** Each micro-batch of the list follows from the ones before. */
  ghost predicate AllFollow(b: Batch, ubs: seq<UBatch>, nUbatch: nat, mode: SplitMode)
    requires b.WellFormed()
  {
    forall u: nat | u < |ubs| :: FollowsBefore(b, ubs, u, nUbatch, mode)
  }

  /** Micro-batch u follows from those before it. */
  ghost predicate FollowsBefore(b: Batch, ubs: seq<UBatch>, u: nat, nUbatch: nat, mode: SplitMode)
    requires b.WellFormed() && u < |ubs|
  {
    FollowsAt(b, RowsTo(ubs, u), ubs[u].idxs, nUbatch, mode)
  }

  ghost predicate FollowsAt(b: Batch, before: seq<nat>, idxs: seq<nat>, nUbatch: nat, mode: SplitMode)
    requires b.WellFormed()
  {
    Follows(b, UsedBy(|b.seqIds|, before), idxs, nUbatch, mode)
  }

  lemma FollowsHere(b: Batch, emitted: seq<nat>, idxs: seq<nat>, used: seq<bool>, head: Heads, nUbatch: nat,
                    mode: SplitMode)
    requires b.WellFormed() && Tracks(b.Sets(), used, head) && Ledger(b.Sets(), head, emitted)
    requires Follows(b, used, idxs, nUbatch, mode)
    ensures FollowsAt(b, emitted, idxs, nUbatch, mode)
  {
    EmittedExactlyTheUsed(b.Sets(), used, head, emitted);
    assert UsedBy(|b.seqIds|, emitted) == used;
  }

  lemma FollowGrows(b: Batch, ubs: seq<UBatch>, ub: UBatch, nUbatch: nat, mode: SplitMode)
    requires b.WellFormed() && AllFollow(b, ubs, nUbatch, mode)
    requires FollowsAt(b, RowsTo(ubs, |ubs|), ub.idxs, nUbatch, mode)
    ensures AllFollow(b, ubs + [ub], nUbatch, mode)
  {
    var all := ubs + [ub];
    forall u: nat | u < |all|
      ensures FollowsBefore(b, all, u, nUbatch, mode)
    {
      assert u < |ubs| ==> FollowsBefore(b, ubs, u, nUbatch, mode);
      RowsToFront(ubs, ub, u);
      assert all[u] == if u < |ubs| then ubs[u] else ub;
    }
  }

  lemma DeliveredGrows(b: Batch, ubs: seq<UBatch>, ub: UBatch, nUbatch: nat, mode: SplitMode)
    requires b.WellFormed() && AllDelivered(b, ubs, nUbatch, mode) && Delivered(b, ub, nUbatch, mode)
    ensures AllDelivered(b, ubs + [ub], nUbatch, mode)
  {
  }

  /** Every micro-batch so far is as its split promises, and follows from the ones before. */
  ghost predicate Traced(b: Batch, ubs: seq<UBatch>, nUbatch: nat, mode: SplitMode)
    requires b.WellFormed()
  {
    AllDelivered(b, ubs, nUbatch, mode) && AllFollow(b, ubs, nUbatch, mode)
  }

  lemma TraceGrows(b: Batch, ubs: seq<UBatch>, ub: UBatch, nUbatch: nat, mode: SplitMode)
    requires b.WellFormed() && Traced(b, ubs, nUbatch, mode) && Delivered(b, ub, nUbatch, mode)
    requires FollowsAt(b, RowsTo(ubs, |ubs|), ub.idxs, nUbatch, mode)
    ensures Traced(b, ubs + [ub], nUbatch, mode)
    ensures RowsTo(ubs + [ub], |ubs| + 1) == RowsTo(ubs, |ubs|) + ub.idxs
  {
    RowsToFront(ubs, ub, |ubs|);
    DeliveredGrows(b, ubs, ub, nUbatch, mode);
    FollowGrows(b, ubs, ub, nUbatch, mode);
  }

  lemma AllTailsWhole(sets: seq<SeqSet>, used: seq<bool>, head: Heads, keep: nat, ubs: seq<UBatch>)
    requires Tracks(sets, used, head) && (forall s :: TailSafe(sets, head, s, keep, ubs)) && 0 < keep
    requires forall i | 0 <= i < |used| :: used[i]
    ensures forall s | s in sets :: TailInOne(sets, s, keep, ubs)
  {
    forall s | s in sets
      ensures TailInOne(sets, s, keep, ubs)
    {
      WholeTail(sets, used, head, s, keep, ubs);
    }
  }

  // ---- tails of single sequences -------------------------------------------------------

  /** The tokens below n that belong to sequence x, in batch order. */
  ghost function TokensBelow(sets: seq<SeqSet>, x: nat, n: nat): (r: seq<nat>)
    requires n <= |sets|
    ensures forall k | 0 <= k < |r| :: r[k] < n && x in sets[r[k]]
  {
    if n == 0 then []
    else if x in sets[n - 1] then TokensBelow(sets, x, n - 1) + [n - 1]
    else TokensBelow(sets, x, n - 1)
  }

  ghost predicate TailCarries(sets: seq<SeqSet>, xs: seq<nat>, keep: nat, s: SeqSet) {
    forall j: nat | j < keep && j < |xs| :: FromEnd(xs, j) < |sets| && sets[FromEnd(xs, j)] == s
  }

  /** One micro-batch has the whole tail of sequence x. */
  ghost predicate SequenceTailInOne(sets: seq<SeqSet>, x: nat, keep: nat, ubs: seq<UBatch>) {
    exists u :: 0 <= u < |ubs| && TailAmong(TokensBelow(sets, x, |sets|), keep, ubs[u].idxs)
  }

  /** The last tokens of sequence x carry one sequence set. */
  ghost predicate TailOfOneSet(sets: seq<SeqSet>, x: nat, keep: nat) {
    exists s :: x in s && TailCarries(sets, TokensBelow(sets, x, |sets|), keep, s)
  }

  /** If the last t tokens of x carry one set, they are the last t tokens of that set. */
  lemma {:induction false} TailsAgree(sets: seq<SeqSet>, x: nat, s: SeqSet, n: nat, t: nat)
    requires n <= |sets| && x in s && t <= |TokensBelow(sets, x, n)|
    requires TailCarries(sets, TokensBelow(sets, x, n), t, s)
    ensures t <= |MembersBelow(sets, s, n)|
    ensures forall j: nat | j < t :: FromEnd(MembersBelow(sets, s, n), j) == FromEnd(TokensBelow(sets, x, n), j)
  {
    if t > 0 {
      var xs, before := TokensBelow(sets, x, n), TokensBelow(sets, x, n - 1);
      if x in sets[n - 1] {
        assert FromEnd(xs, 0) == n - 1;
        forall j: nat | j < t - 1 && j < |before| ensures sets[FromEnd(before, j)] == s {
          assert FromEnd(before, j) == FromEnd(xs, j + 1);
        }
        TailsAgree(sets, x, s, n - 1, t - 1);
        forall j: nat | j < t ensures FromEnd(MembersBelow(sets, s, n), j) == FromEnd(xs, j) {
          if j > 0 {
            assert FromEnd(MembersBelow(sets, s, n - 1), j - 1) == FromEnd(before, j - 1);
          }
        }
      } else {
        TailsAgree(sets, x, s, n - 1, t);
      }
    }
  }

  /** Tokens of one micro-batch that share a sequence are in one group, and so carry one set. */
  lemma GroupsKeepApart(sets: seq<SeqSet>, ub: UBatch, sequential: bool, groups: seq<SeqSet>, x: nat, i: nat, j: nat)
    requires Grouped(sets, ub, sequential, groups) && i in ub.idxs && j in ub.idxs
    requires i < |sets| && j < |sets| && x in sets[i] && x in sets[j]
    ensures sets[i] == sets[j]
  {
    var a: nat :| a < |ub.idxs| && ub.idxs[a] == i;
    var c: nat :| c < |ub.idxs| && ub.idxs[c] == j;
    var g, h := GroupOf(sets, ub, sequential, groups, a), GroupOf(sets, ub, sequential, groups, c);
    OneGroupPerSequence(groups, g, h, x);
  }

  lemma OneGroupPerSequence(groups: seq<SeqSet>, g: nat, h: nat, x: nat)
    requires Disjoint(groups) && g < |groups| && h < |groups| && x in groups[g] && x in groups[h]
    ensures g == h
  {
  }

  /** The group in which row a stands. */
  ghost function GroupOf(sets: seq<SeqSet>, ub: UBatch, sequential: bool, groups: seq<SeqSet>, a: nat): (g: nat)
    requires Grouped(sets, ub, sequential, groups) && a < |ub.idxs|
    ensures g < |groups| && ub.idxs[a] < |sets| && sets[ub.idxs[a]] == groups[g]
  {
    var len := ub.nSeqTokens;
    var g := a / len;
    DivideBounds(a, len);
    StrictOrder(ub.nSeqs, g + 1, len);
    RowInGroup(a, len, g, ub.nSeqs);
    assert GroupCarries(sets, ub, g, groups[g]);
    assert RowCarries(sets, ub.idxs, len, g, a - len * g, groups[g]);
    g
  }

  lemma RowInGroup(a: nat, len: nat, g: nat, n: nat)
    requires 0 < len && g * len <= a < (g + 1) * len && a < len * n
    ensures g < n && 0 <= a - len * g < len
  {
    if n <= g {
      MultiplyOrder(n, g, len);
    }
  }

  ghost predicate InSomeToken(b: Batch, x: nat) {
    exists i :: 0 <= i < |b.seqIds| && x in b.seqIds[i]
  }

  /** What the comment above the kept tails asks for sequence by sequence: the last tokens of a sequence go
    * out in one micro-batch exactly if they all carry one sequence set. */
  lemma SequenceTails(b: Batch, ubs: seq<UBatch>, nUbatch: nat, mode: SplitMode, x: nat)
    requires b.WellFormed() && mode.Equal? && 0 < mode.nKeepTail && AllDelivered(b, ubs, nUbatch, mode)
    requires forall s | s in b.Sets() :: TailInOne(b.Sets(), s, mode.nKeepTail, ubs)
    requires InSomeToken(b, x)
    ensures SequenceTailInOne(b.Sets(), x, mode.nKeepTail, ubs) <==> TailOfOneSet(b.Sets(), x, mode.nKeepTail)
  {
    var sets, keep := b.Sets(), mode.nKeepTail;
    var xs := TokensBelow(sets, x, |sets|);
    TokensExist(sets, x, |sets|);
    if SequenceTailInOne(sets, x, keep, ubs) {
      var u :| 0 <= u < |ubs| && TailAmong(xs, keep, ubs[u].idxs);
      assert Delivered(b, ubs[u], nUbatch, mode);
      var groups :| Grouped(sets, ubs[u], mode.sequential, groups);
      var last := FromEnd(xs, 0);
      forall j: nat | j < keep && j < |xs| ensures sets[FromEnd(xs, j)] == sets[last] {
        GroupsKeepApart(sets, ubs[u], mode.sequential, groups, x, FromEnd(xs, j), last);
      }
      assert TailCarries(sets, xs, keep, sets[last]);
    }
    if TailOfOneSet(sets, x, keep) {
      var s :| x in s && TailCarries(sets, xs, keep, s);
      OneSetTail(sets, x, s, keep, ubs);
    }
  }

  ghost predicate SequenceTailsExact(b: Batch, ubs: seq<UBatch>, keep: nat) {
    forall x: nat | InSomeToken(b, x) :: SequenceTailInOne(b.Sets(), x, keep, ubs) <==> TailOfOneSet(b.Sets(), x, keep)
  }

  lemma AllSequenceTails(b: Batch, ubs: seq<UBatch>, nUbatch: nat, mode: SplitMode)
    requires b.WellFormed() && mode.Equal? && 0 < mode.nKeepTail && AllDelivered(b, ubs, nUbatch, mode)
    requires forall s | s in b.Sets() :: TailInOne(b.Sets(), s, mode.nKeepTail, ubs)
    ensures SequenceTailsExact(b, ubs, mode.nKeepTail)
  {
    forall x: nat | InSomeToken(b, x)
      ensures SequenceTailInOne(b.Sets(), x, mode.nKeepTail, ubs) <==> TailOfOneSet(b.Sets(), x, mode.nKeepTail)
    {
      SequenceTails(b, ubs, nUbatch, mode, x);
    }
  }

  lemma {:induction false} TokensExist(sets: seq<SeqSet>, x: nat, n: nat)
    requires n <= |sets| && exists i :: 0 <= i < n && x in sets[i]
    ensures TokensBelow(sets, x, n) != []
  {
    if x !in sets[n - 1] {
      TokensExist(sets, x, n - 1);
    }
  }

  lemma OneSetTail(sets: seq<SeqSet>, x: nat, s: SeqSet, keep: nat, ubs: seq<UBatch>)
    requires x in s && TailCarries(sets, TokensBelow(sets, x, |sets|), keep, s) && 0 < keep
    requires TokensBelow(sets, x, |sets|) != []
    requires forall t | t in sets :: TailInOne(sets, t, keep, ubs)
    ensures SequenceTailInOne(sets, x, keep, ubs)
  {
    var xs := TokensBelow(sets, x, |sets|);
    var t := if keep <= |xs| then keep else |xs|;
    TailsAgree(sets, x, s, |sets|, t);
    assert sets[FromEnd(xs, 0)] in sets;
    var u :| 0 <= u < |ubs| && TailIn(sets, s, keep, ubs[u].idxs);
    SameTail(xs, Members(sets, s), t, keep, ubs[u].idxs);
  }

  lemma SameTail(xs: seq<nat>, m: seq<nat>, t: nat, keep: nat, idxs: seq<nat>)
    requires t <= |xs| && t <= |m| && t <= keep && (t == keep || t == |xs|) && TailAmong(m, keep, idxs)
    requires forall j: nat | j < t :: FromEnd(m, j) == FromEnd(xs, j)
    ensures TailAmong(xs, keep, idxs)
  {
    forall j: nat | j < keep && j < |xs| ensures FromEnd(xs, j) in idxs {
      assert FromEnd(m, j) == FromEnd(xs, j);
    }
  }

  /** Without coupled sequences the comment holds as it stands. */
  lemma UncoupledTails(b: Batch, keep: nat, x: nat)
    requires b.WellFormed() && !b.Coupled()
    ensures TailOfOneSet(b.Sets(), x, keep)
  {
    var xs := TokensBelow(b.Sets(), x, |b.seqIds|);
    forall j: nat | j < keep && j < |xs| ensures b.Sets()[FromEnd(xs, j)] == {x} {
      assert |b.seqIds[FromEnd(xs, j)]| == 1;
    }
    assert TailCarries(b.Sets(), xs, keep, {x});
  }

  /** With them it fails: the tail of sequence 0 carries two sets here. */
  lemma CoupledTailIsCut()
    ensures !TailOfOneSet(Batch([[0], [0, 1]], [0, 1], [false, true]).Sets(), 0, 2)
  {
    var sets := Batch([[0], [0, 1]], [0, 1], [false, true]).Sets();
    assert 0 in sets[0] && 0 in sets[1] && 1 in sets[1] && 1 !in sets[0];
    TwoTokens(sets);
  }

  lemma TwoTokens(sets: seq<SeqSet>)
    requires |sets| == 2 && 0 in sets[0] && 0 in sets[1] && sets[0] != sets[1]
    ensures !TailOfOneSet(sets, 0, 2)
  {
    assert TokensBelow(sets, 0, 0) == [] && TokensBelow(sets, 0, 1) == [0] && TokensBelow(sets, 0, 2) == [0, 1];
    assert FromEnd([0, 1], 0) == 1 && FromEnd([0, 1], 1) == 0;
  }

  method SplitOnce(balloc: Allocr, nUbatch: nat, mode: SplitMode, ghost ubs: seq<UBatch>) returns (ub: UBatch)
    requires balloc.Valid() && ModeAllowed(mode, nUbatch)
    requires mode.Simple? ==> BatchPrefix(balloc.used)
    requires TailsSafe(balloc.seqSet, balloc.head, mode, ubs)
    modifies balloc`used, balloc`nUsed, balloc`outIds, balloc`head, balloc`emitted
    ensures balloc.Valid() && balloc.emitted == old(balloc.emitted) + ub.idxs
    ensures mode.Simple? ==> BatchPrefix(balloc.used)
    ensures TailsSafe(balloc.seqSet, balloc.head, mode, ubs + [ub])
    ensures ub.idxs == [] <==> FirstUnused(old(balloc.used), 0) == |balloc.seqSet| || Barred(balloc.batch, mode)
    ensures ub.idxs == [] ==> balloc.used == old(balloc.used) && balloc.head == old(balloc.head)
    ensures ub.idxs != [] ==> Delivered(balloc.batch, ub, nUbatch, mode)
    ensures ub.idxs != [] ==> FollowsAt(balloc.batch, old(balloc.emitted), ub.idxs, nUbatch, mode)
  {
    ghost var given, used, head := balloc.emitted, balloc.used, balloc.head;
    ub := SplitBy(balloc, nUbatch, mode, ubs);
    if ub.idxs != [] {
      FollowsHere(balloc.batch, given, ub.idxs, used, head, nUbatch, mode);
    }
  }

  method SplitBy(balloc: Allocr, nUbatch: nat, mode: SplitMode, ghost ubs: seq<UBatch>) returns (ub: UBatch)
    requires balloc.Valid() && ModeAllowed(mode, nUbatch)
    requires mode.Simple? ==> BatchPrefix(balloc.used)
    requires TailsSafe(balloc.seqSet, balloc.head, mode, ubs)
    modifies balloc`used, balloc`nUsed, balloc`outIds, balloc`head, balloc`emitted
    ensures balloc.Valid() && balloc.emitted == old(balloc.emitted) + ub.idxs
    ensures mode.Simple? ==> BatchPrefix(balloc.used)
    ensures TailsSafe(balloc.seqSet, balloc.head, mode, ubs + [ub])
    ensures ub.idxs == [] <==> FirstUnused(old(balloc.used), 0) == |balloc.seqSet| || Barred(balloc.batch, mode)
    ensures ub.idxs == [] ==> balloc.used == old(balloc.used) && balloc.head == old(balloc.head)
    ensures ub.idxs != [] ==> Delivered(balloc.batch, ub, nUbatch, mode)
    ensures ub.idxs != [] ==> Follows(balloc.batch, old(balloc.used), ub.idxs, nUbatch, mode)
  {
    match mode
    case Simple =>
      ghost var used0 := balloc.used;
      if FirstUnused(used0, 0) < |used0| {
        PrefixWindowUnused(used0, nUbatch);
      }
      ub := balloc.SplitSimple(nUbatch);
    case BySequence =>
      ghost var used0 := balloc.used;
      ub := balloc.SplitSeq(nUbatch);
      if ub.idxs != [] {
        ChainShape(balloc.batch, used0, ub, nUbatch);
      }
    case Equal(sequential, nKeepTail) =>
      ub := SplitEqualOnce(balloc, nUbatch, sequential, nKeepTail, ubs);
  }

  method SplitEqualOnce(balloc: Allocr, nUbatch: nat, sequential: bool, nKeepTail: nat, ghost ubs: seq<UBatch>)
    returns (ub: UBatch)
    requires balloc.Valid() && (nKeepTail == 0 || nKeepTail < nUbatch)
    requires forall s :: TailSafe(balloc.seqSet, balloc.head, s, nKeepTail, ubs)
    modifies balloc`used, balloc`nUsed, balloc`outIds, balloc`head, balloc`emitted
    ensures balloc.Valid() && balloc.emitted == old(balloc.emitted) + ub.idxs
    ensures forall s :: TailSafe(balloc.seqSet, balloc.head, s, nKeepTail, ubs + [ub])
    ensures ub.idxs == [] <==> FirstUnused(old(balloc.used), 0) == |balloc.seqSet| || (sequential && balloc.hasCpl)
    ensures ub.idxs == [] ==> balloc.used == old(balloc.used) && balloc.head == old(balloc.head)
    ensures ub.idxs != [] ==> Delivered(balloc.batch, ub, nUbatch, Equal(sequential, nKeepTail))
    ensures ub.idxs != [] ==> Follows(balloc.batch, old(balloc.used), ub.idxs, nUbatch, Equal(sequential, nKeepTail))
  {
    ghost var sets, used0, head0, first := balloc.seqSet, balloc.used, balloc.head, FirstIds(balloc.batch);
    ub := balloc.SplitEqual(nUbatch, sequential, nKeepTail);
    if ub.idxs == [] {
      forall s
        ensures TailSafe(sets, balloc.head, s, nKeepTail, ubs + [ub])
      {
        assert TailSafe(sets, head0, s, nKeepTail, ubs);
        if TailInOne(sets, s, nKeepTail, ubs) {
          TailInOneGrows(sets, s, nKeepTail, ubs, ub);
        }
      }
    } else {
      EqualShape(balloc.batch, used0, head0, ub, nUbatch, Equal(sequential, nKeepTail));
      NextPlanPromises(sets, first, used0, head0, nUbatch, sequential, nKeepTail);
      ghost var p := NextPlan(sets, first, used0, head0, nUbatch, sequential, nKeepTail);
      forall s
        ensures TailSafe(sets, balloc.head, s, nKeepTail, ubs + [ub])
      {
        TailStep(sets, head0, p, nKeepTail, ubs, ub, s);
      }
    }
  }

  ghost predicate TailsSafe(sets: seq<SeqSet>, head: Heads, mode: SplitMode, ubs: seq<UBatch>) {
    mode.Equal? ==> forall s :: TailSafe(sets, head, s, mode.nKeepTail, ubs)
  }

  /** A sequential split of coupled sequences is not supported. */
  ghost predicate Barred(b: Batch, mode: SplitMode) {
    mode.Equal? && mode.sequential && b.Coupled()
  }

  /** What holds when no split yields anything more. */
  lemma SplitEnds(b: Batch, used: seq<bool>, nUsed: nat, head: Heads, ubs: seq<UBatch>, nUbatch: nat, mode: SplitMode)
    requires b.WellFormed() && b.seqIds != [] && Traced(b, ubs, nUbatch, mode)
    requires InProgress(b.Sets(), used, nUsed, head, RowsTo(ubs, |ubs|)) && TailsSafe(b.Sets(), head, mode, ubs)
    requires FirstUnused(used, 0) == |used| || Barred(b, mode)
    requires Barred(b, mode) ==> RowsTo(ubs, |ubs|) == []
    ensures nUsed >= |b.seqIds| <==> !Barred(b, mode)
    ensures !Barred(b, mode) ==> Complete(b.Sets(), RowsTo(ubs, |ubs|))
    ensures !Barred(b, mode) && mode.Equal? && 0 < mode.nKeepTail ==>
              && (forall s | s in b.Sets() :: TailInOne(b.Sets(), s, mode.nKeepTail, ubs))
              && SequenceTailsExact(b, ubs, mode.nKeepTail)
  {
    AllUsedIsComplete(b.Sets(), used, nUsed, head, RowsTo(ubs, |ubs|));
    if Barred(b, mode) {
      assert 0 !in RowsTo(ubs, |ubs|);
    } else if mode.Equal? && 0 < mode.nKeepTail {
      AllTailsWhole(b.Sets(), used, head, mode.nKeepTail, ubs);
      AllSequenceTails(b, ubs, nUbatch, mode);
    }
  }

  /** One round of the loop: another micro-batch, or the end. */
  method SplitNext(balloc: Allocr, nUbatch: nat, mode: SplitMode, ubs: seq<UBatch>)
    returns (more: seq<UBatch>, done: bool)
    requires balloc.Valid() && ModeAllowed(mode, nUbatch) && Traced(balloc.batch, ubs, nUbatch, mode)
    requires balloc.emitted == RowsTo(ubs, |ubs|) && TailsSafe(balloc.seqSet, balloc.head, mode, ubs)
    requires mode.Simple? ==> BatchPrefix(balloc.used)
    modifies balloc`used, balloc`nUsed, balloc`outIds, balloc`head, balloc`emitted
    ensures balloc.Valid() && Traced(balloc.batch, more, nUbatch, mode)
    ensures balloc.emitted == RowsTo(more, |more|) && TailsSafe(balloc.seqSet, balloc.head, mode, more)
    ensures mode.Simple? ==> BatchPrefix(balloc.used)
    ensures done ==> FirstUnused(balloc.used, 0) == |balloc.seqSet| || Barred(balloc.batch, mode)
    ensures done ==> balloc.emitted == old(balloc.emitted)
    ensures !done ==> |old(balloc.emitted)| < |balloc.emitted| <= |balloc.seqSet| && !Barred(balloc.batch, mode)
  {
    var ub := SplitOnce(balloc, nUbatch, mode, ubs);
    if |ub.idxs| == 0 {
      return ubs, true;
    }
    more := ubs + [ub];
    assert Traced(balloc.batch, more, nUbatch, mode) && balloc.emitted == RowsTo(more, |more|) by {
      TraceGrows(balloc.batch, ubs, ub, nUbatch, mode);
    }
    assert |balloc.emitted| <= |balloc.seqSet| by {
      EmittedBounded(balloc.seqSet, balloc.used, balloc.head, balloc.emitted);
    }
    done := false;
  }

  /** The split loop of a memory module. It fails exactly for a sequential split of a batch with
    * coupled sequences; otherwise every token goes out once, in order per set, with the wanted
    * outputs listed once each, and under an equal split with a kept tail no set's last n_keep_tail
    * tokens are spread over two micro-batches; those of a sequence are not exactly if they carry one
    * set. Every micro-batch follows from the ones before. */
  method SplitAll(balloc: Allocr, nUbatch: nat, mode: SplitMode) returns (ubatches: seq<UBatch>, ok: bool)
    requires balloc.Prepared() && balloc.seqSet != [] && ModeAllowed(mode, nUbatch)
    modifies balloc
    ensures balloc.batch == old(balloc.batch) && balloc.seqSet == old(balloc.seqSet)
        && balloc.hasCpl == old(balloc.hasCpl)
    ensures balloc.nOutputs == old(balloc.nOutputs)
    ensures ok <==> !(mode.Equal? && mode.sequential && balloc.hasCpl)
    ensures ok ==> Complete(balloc.seqSet, RowsTo(ubatches, |ubatches|))
    ensures ok ==> balloc.outIds == Flagged(balloc.batch.output, RowsTo(ubatches, |ubatches|))
    ensures ok && mode.Equal? && 0 < mode.nKeepTail ==>
              forall s | s in balloc.seqSet :: TailInOne(balloc.seqSet, s, mode.nKeepTail, ubatches)
    ensures Traced(balloc.batch, ubatches, nUbatch, mode)
    ensures ok && mode.Equal? && 0 < mode.nKeepTail ==> SequenceTailsExact(balloc.batch, ubatches, mode.nKeepTail)
    ensures balloc.Valid()
  {
    balloc.SplitReset();
    ubatches := [];
    ghost var sets := balloc.seqSet;
    var done := false;
    while !done
      invariant balloc.Valid() && balloc.batch == old(balloc.batch) && balloc.seqSet == sets
      invariant balloc.hasCpl == old(balloc.hasCpl) && balloc.nOutputs == old(balloc.nOutputs)
      invariant balloc.emitted == RowsTo(ubatches, |ubatches|)
      invariant Traced(balloc.batch, ubatches, nUbatch, mode)
      invariant mode.Simple? ==> BatchPrefix(balloc.used)
      invariant TailsSafe(sets, balloc.head, mode, ubatches)
      invariant done ==> FirstUnused(balloc.used, 0) == |sets| || Barred(balloc.batch, mode)
      invariant Barred(balloc.batch, mode) ==> balloc.emitted == []
      decreases if done then 0 else 1, |sets| - |balloc.emitted|
    {
      ubatches, done := SplitNext(balloc, nUbatch, mode, ubatches);
    }
    ok := balloc.nUsed >= |balloc.seqSet|;
    SplitEnds(balloc.batch, balloc.used, balloc.nUsed, balloc.head, ubatches, nUbatch, mode);
  }
}
