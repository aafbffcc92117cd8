/** The batch allocator (llama_batch_allocr): it takes a batch apart into micro-batches.
  * Ghost fields record the abstract state: how far each set's list is handed out (head) and the
  * tokens emitted so far (emitted).
  */
module BatchAllocr {
  import opened Batches
  import opened BatchTokens
  import opened Sequences
  import opened SplitPlan
  import opened EqualSplit
  import opened SplitLaw

  /** A list of the map; a missing one reads as empty. */
  function ListOf(m: map<SeqSet, seq<nat>>, s: SeqSet): seq<nat> {
    if s in m then m[s] else []
  }

  /** The tokens among the first n of xs whose output is wanted. */
  function FlaggedTo(output: seq<bool>, xs: seq<nat>, n: nat): seq<nat>
    requires n <= |xs|
  {
    if n == 0 then []
    else if xs[n - 1] < |output| && output[xs[n - 1]] then FlaggedTo(output, xs, n - 1) + [xs[n - 1]]
    else FlaggedTo(output, xs, n - 1)
  }

  function Flagged(output: seq<bool>, xs: seq<nat>): seq<nat> {
    FlaggedTo(output, xs, |xs|)
  }

  lemma {:induction false} FlaggedFront(output: seq<bool>, a: seq<nat>, b: seq<nat>, n: nat)
    requires n <= |a|
    ensures FlaggedTo(output, a + b, n) == FlaggedTo(output, a, n)
  {
    if n > 0 {
      FlaggedFront(output, a, b, n - 1);
    }
  }

  lemma {:induction false} FlaggedBack(output: seq<bool>, a: seq<nat>, b: seq<nat>, n: nat)
    requires n <= |b|
    ensures FlaggedTo(output, a + b, |a| + n) == Flagged(output, a) + FlaggedTo(output, b, n)
  {
    if n == 0 {
      FlaggedFront(output, a, b, |a|);
    } else {
      FlaggedBack(output, a, b, n - 1);
      assert (a + b)[|a| + n - 1] == b[n - 1];
    }
  }

  lemma FlaggedAppend(output: seq<bool>, a: seq<nat>, b: seq<nat>)
    ensures Flagged(output, a + b) == Flagged(output, a) + Flagged(output, b)
  {
    FlaggedBack(output, a, b, |b|);
  }

  /** A micro-batch: the batch rows it takes, cut into nSeqs groups of nSeqTokens. */
  datatype UBatch = UBatch(idxs: seq<nat>, nSeqs: nat, nSeqTokens: nat, equalSeqs: bool,
                           seqIds: seq<seq<nat>>, pos: seq<int>, output: seq<bool>)

  const NO_UBATCH := UBatch([], 0, 0, false, [], [], [])

  /** The micro-batch holding the rows idxs of b. */
  ghost predicate Carries(b: Batch, ub: UBatch, idxs: seq<nat>, nSeqs: nat, equalSeqs: bool)
    requires b.WellFormed()
  {
    && ub.idxs == idxs && ub.nSeqs == nSeqs && ub.equalSeqs == equalSeqs
    && ub.nSeqTokens * nSeqs == |idxs|
    && |ub.seqIds| == |ub.pos| == |ub.output| == |idxs|
    && forall k | 0 <= k < |idxs| :: idxs[k] < |b.seqIds|
                                  && ub.seqIds[k] == b.seqIds[idxs[k]]
                                  && ub.pos[k] == b.pos[idxs[k]]
                                  && ub.output[k] == b.output[idxs[k]]
  }

  /** From the first unused token on, each next token is the first later unused one whose set is
    * contained in the previous token's set. */
  ghost predicate Chain(sets: seq<SeqSet>, used: seq<bool>, idxs: seq<nat>)
    requires |used| == |sets|
  {
    && idxs != []
    && (forall k | 0 <= k < |idxs| :: idxs[k] < |sets| && !used[idxs[k]])
    && (forall j | 0 <= j < idxs[0] :: used[j])
    && forall k, l | 0 <= k && l == k + 1 < |idxs| :: Link(sets, used, idxs[k], idxs[l])
  }

  ghost predicate Link(sets: seq<SeqSet>, used: seq<bool>, i: nat, next: nat)
    requires |used| == |sets|
  {
    && i < next < |sets| && sets[next] <= sets[i]
    && forall j | i < j < next :: used[j] || !(sets[j] <= sets[i])
  }

  /** What a sequence-set split returns: a chain that ends at n_ubatch tokens or when it cannot be
    * continued. */
  ghost predicate SeqChain(sets: seq<SeqSet>, used: seq<bool>, nUbatch: nat, idxs: seq<nat>)
    requires |used| == |sets|
  {
    && Chain(sets, used, idxs)
    && (|idxs| == 1 || |idxs| <= nUbatch)
    && (|idxs| < nUbatch ==>
          forall j | idxs[|idxs| - 1] < j < |sets| :: used[j] || !(sets[j] <= sets[idxs[|idxs| - 1]]))
  }

  /** A chain passes over no token it could still take: below its last token, everything unused
    * and not taken has a set outside the last one. */
  lemma {:induction false} ChainCovers(sets: seq<SeqSet>, used: seq<bool>, idxs: seq<nat>)
    requires |used| == |sets| && Chain(sets, used, idxs)
    ensures forall k | 0 <= k < |idxs| :: idxs[k] <= idxs[|idxs| - 1]
    ensures forall j | 0 <= j < idxs[|idxs| - 1] :: used[j] || j in idxs || !(sets[j] <= sets[idxs[|idxs| - 1]])
    decreases |idxs|
  {
    var n := |idxs| - 1;
    if n > 0 {
      var rest := idxs[..n];
      assert Link(sets, used, idxs[n - 1], idxs[n]);
      forall k, l | 0 <= k && l == k + 1 < |rest|
        ensures Link(sets, used, rest[k], rest[l])
      {
        assert Link(sets, used, idxs[k], idxs[l]);
      }
      ChainCovers(sets, used, rest);
      forall j | 0 <= j < idxs[n]
        ensures used[j] || j in idxs || !(sets[j] <= sets[idxs[n]])
      {
        if j < idxs[n - 1] {
          assert j in rest ==> j in idxs;
        } else if j == idxs[n - 1] {
          assert j in idxs;
        }
      }
    }
  }

  /** Using one token that is the next of its set. */
  lemma EmitOne(sets: seq<SeqSet>, used: seq<bool>, head: Heads, emitted: seq<nat>, i: nat)
    requires Tracks(sets, used, head) && Ledger(sets, head, emitted)
    requires i < |sets| && !used[i] && forall j | 0 <= j < i && sets[j] == sets[i] :: used[j]
    ensures var head' := head[sets[i] := At(head, sets[i]) + 1];
            && Tracks(sets, used[i := true], head')
            && Ledger(sets, head', emitted + [i])
            && CountTrue(used[i := true]) == CountTrue(used) + 1
  {
    var s := sets[i];
    FirstUnusedIsHead(sets, used, head, i);
    UseNext(sets, used, head, s);
    LedgerExtends(sets, head, emitted, s, 1);
    assert Members(sets, s)[At(head, s)..At(head, s) + 1] == [i];
  }

  /** The tables `init` builds agree with the batch. */
  ghost predicate Tables(b: Batch, sets: seq<SeqSet>, lists: map<SeqSet, seq<nat>>, hasCpl: bool) {
    && b.WellFormed()
    && sets == b.Sets()
    && (forall i | 0 <= i < |sets| :: sets[i] != {})
    && (hasCpl <==> b.Coupled())
    && forall s :: ListedRight(sets, lists, s)
  }

  ghost predicate ListedRight(sets: seq<SeqSet>, lists: map<SeqSet, seq<nat>>, s: SeqSet) {
    ListOf(lists, s) == Members(sets, s)
  }

  /** Mid-call: the used tokens are those emitted before plus the ones collected now. */
  ghost predicate InProgress(sets: seq<SeqSet>, used: seq<bool>, nUsed: nat, head: Heads, given: seq<nat>) {
    Tracks(sets, used, head) && Ledger(sets, head, given) && nUsed == CountTrue(used)
  }

  /** The splitting state: the used flags are a prefix of every set's list, n_used counts them,
    * and exactly the used tokens have been emitted, in order per set, flagged ones in out_ids. */
  ghost predicate Splitting(sets: seq<SeqSet>, output: seq<bool>, used: seq<bool>, nUsed: nat, outIds: seq<nat>,
                            head: Heads, emitted: seq<nat>)
  {
    InProgress(sets, used, nUsed, head, emitted) && outIds == Flagged(output, emitted)
  }

  function Range(lo: nat, hi: nat): (r: seq<nat>)
    requires lo <= hi
    ensures |r| == hi - lo && forall k | 0 <= k < |r| :: r[k] == lo + k
  {
    if lo == hi then [] else Range(lo, hi - 1) + [hi - 1]
  }

  /** The first unused token, or the size of the batch. */
  function FirstUnused(used: seq<bool>, from: nat): (m: nat)
    requires from <= |used|
    ensures from <= m <= |used| && (m < |used| ==> !used[m]) && forall k | from <= k < m :: used[k]
    decreases |used| - from
  {
    if from == |used| || !used[from] then from else FirstUnused(used, from + 1)
  }

  /** The end of the window of consecutive tokens a simple split takes. */
  function WindowEnd(used: seq<bool>, nUbatch: nat): (e: nat)
    requires FirstUnused(used, 0) < |used|
    ensures FirstUnused(used, 0) < e <= |used|
  {
    var m := FirstUnused(used, 0);
    var n := if nUbatch == 0 then 1 else nUbatch;
    if m + n < |used| then m + n else |used|
  }

  /** The rows idxs begin at the first unused token, follow each other, and are as many as n_ubatch or the end
    * of the batch allow, but one at least. */
  ghost predicate WindowOf(used: seq<bool>, idxs: seq<nat>, nUbatch: nat) {
    && idxs != [] && idxs[0] < |used| && !used[idxs[0]] && (forall j | 0 <= j < idxs[0] :: used[j])
    && idxs[0] + |idxs| <= |used| && (forall k | 0 <= k < |idxs| :: idxs[k] == idxs[0] + k)
    && (|idxs| == 1 || |idxs| <= nUbatch)
    && (idxs[0] + |idxs| == |used| || nUbatch <= |idxs|)
  }

  lemma WindowIsLongest(used: seq<bool>, nUbatch: nat)
    requires FirstUnused(used, 0) < |used|
    ensures WindowOf(used, Range(FirstUnused(used, 0), WindowEnd(used, nUbatch)), nUbatch)
  {
  }

  /** No used token after an unused one. */
  ghost predicate BatchPrefix(used: seq<bool>) {
    forall i, j | 0 <= i < j < |used| && used[j] :: used[i]
  }

  /** After nothing but simple splits the window holds only unused tokens, so none is taken twice. */
  lemma PrefixWindowUnused(used: seq<bool>, nUbatch: nat)
    requires BatchPrefix(used) && FirstUnused(used, 0) < |used|
    ensures AllUnused(used, FirstUnused(used, 0), WindowEnd(used, nUbatch))
    ensures BatchPrefix(Marked(used, WindowEnd(used, nUbatch)))
    ensures FirstUnused(Unused(|used|), 0) == 0 && BatchPrefix(Unused(|used|))
  {
    var m := FirstUnused(used, 0);
  }

  /** The flags after a simple split: everything below e is used. */
  function Marked(used: seq<bool>, e: nat): (r: seq<bool>)
    requires e <= |used|
    ensures |r| == |used| && forall k | 0 <= k < |used| :: r[k] == (k < e || used[k])
  {
    if e == 0 then used else Marked(used, e - 1)[e - 1 := true]
  }

  lemma MarkedPrefix(used: seq<bool>, m: nat)
    requires m <= |used| && forall k | 0 <= k < m :: used[k]
    ensures Marked(used, m) == used
  {
  }

  /** Taking one more token whose earlier set-mates are all used. */
  lemma TakeOne(sets: seq<SeqSet>, used: seq<bool>, nUsed: nat, head: Heads, emitted: seq<nat>, idxs: seq<nat>, i: nat)
    requires InProgress(sets, used, nUsed, head, emitted + idxs)
    requires i < |sets| && !used[i] && forall j | 0 <= j < i && sets[j] == sets[i] :: used[j]
    ensures InProgress(sets, used[i := true], nUsed + 1, head[sets[i] := At(head, sets[i]) + 1], emitted + (idxs + [i]))
  {
    EmitOne(sets, used, head, emitted + idxs, i);
    AppendAssociates(emitted, idxs, [i]);
  }

  ghost predicate AllUnused(used: seq<bool>, lo: nat, hi: nat)
    requires hi <= |used|
  {
    forall k | lo <= k < hi :: !used[k]
  }

  /** The state inside a simple split that started at m and has reached cur. */
  ghost predicate WindowState(sets: seq<SeqSet>, used0: seq<bool>, nUsed0: nat, m: nat, cur: nat,
                              used: seq<bool>, nUsed: nat, head: Heads, given: seq<nat>)
  {
    && m <= cur <= |used0| == |sets|
    && used == Marked(used0, cur) && nUsed == nUsed0 + (cur - m)
    && if AllUnused(used0, m, cur)
       then InProgress(sets, used, nUsed, head, given)
       else CountTrue(used) < nUsed
  }

  lemma WindowStep(sets: seq<SeqSet>, used0: seq<bool>, nUsed0: nat, m: nat, cur: nat,
                   used: seq<bool>, nUsed: nat, head: Heads, emitted: seq<nat>, idxs: seq<nat>)
    requires WindowState(sets, used0, nUsed0, m, cur, used, nUsed, head, emitted + idxs) && cur < |used0|
    requires forall k | 0 <= k < m :: used0[k]
    ensures WindowState(sets, used0, nUsed0, m, cur + 1, used[cur := true], nUsed + 1,
                        head[sets[cur] := At(head, sets[cur]) + 1], emitted + (idxs + [cur]))
  {
    assert Marked(used0, cur + 1) == used[cur := true];
    if used[cur] {
      assert used[cur := true] == used;
    } else {
      CountTrueUpdate(used, cur);
      if AllUnused(used0, m, cur) {
        TakeOne(sets, used, nUsed, head, emitted, idxs, cur);
      }
    }
  }

  /** The state inside a sequence-set split that has taken idxs. */
  ghost predicate ChainState(sets: seq<SeqSet>, used0: seq<bool>, used: seq<bool>, nUsed: nat, head: Heads,
                             emitted: seq<nat>, idxs: seq<nat>)
  {
    && |used0| == |sets|
    && InProgress(sets, used, nUsed, head, emitted + idxs)
    && forall j | 0 <= j < |used| :: used[j] <==> used0[j] || j in idxs
  }

  lemma ChainTake(sets: seq<SeqSet>, used0: seq<bool>, used: seq<bool>, nUsed: nat, head: Heads,
                  emitted: seq<nat>, idxs: seq<nat>, cur: nat)
    requires ChainState(sets, used0, used, nUsed, head, emitted, idxs)
    requires Chain(sets, used0, idxs + [cur])
    ensures cur < |used|
    ensures ChainState(sets, used0, used[cur := true], nUsed + 1,
                       head[sets[cur] := At(head, sets[cur]) + 1], emitted, idxs + [cur])
  {
    var chain := idxs + [cur];
    assert chain[|idxs|] == cur;
    ChainCovers(sets, used0, chain);
    assert cur !in idxs by { ChainLastIsNew(sets, used0, idxs, cur); }
    forall j | 0 <= j < cur && sets[j] == sets[cur]
      ensures used[j]
    {
      assert j in chain ==> j in idxs || j == cur;
    }
    TakeOne(sets, used, nUsed, head, emitted, idxs, cur);
  }

  lemma ChainLastIsNew(sets: seq<SeqSet>, used: seq<bool>, idxs: seq<nat>, cur: nat)
    requires |used| == |sets| && Chain(sets, used, idxs + [cur])
    ensures cur !in idxs && (idxs != [] ==> Chain(sets, used, idxs))
  {
    var chain := idxs + [cur];
    if idxs != [] {
      assert Link(sets, used, chain[|idxs| - 1], chain[|idxs|]);
      forall k, l | 0 <= k && l == k + 1 < |idxs|
        ensures Link(sets, used, idxs[k], idxs[l])
      {
        assert Link(sets, used, chain[k], chain[l]);
      }
      assert idxs[0] == chain[0];
      forall k | 0 <= k < |idxs|
        ensures idxs[k] < |sets| && !used[idxs[k]]
      {
        assert idxs[k] == chain[k];
      }
      ChainCovers(sets, used, idxs);
    }
  }

  lemma ChainExtend(sets: seq<SeqSet>, used0: seq<bool>, used: seq<bool>, idxs: seq<nat>, next: nat)
    requires |used0| == |used| == |sets| && Chain(sets, used0, idxs)
    requires forall j | 0 <= j < |used| :: used[j] <==> used0[j] || j in idxs
    requires idxs[|idxs| - 1] < next < |sets| && !used[next] && sets[next] <= sets[idxs[|idxs| - 1]]
    requires forall j | idxs[|idxs| - 1] < j < next :: used[j] || !(sets[j] <= sets[idxs[|idxs| - 1]])
    ensures Chain(sets, used0, idxs + [next])
  {
    ChainCovers(sets, used0, idxs);
    var chain := idxs + [next];
    assert Link(sets, used0, idxs[|idxs| - 1], next);
    forall k, l | 0 <= k && l == k + 1 < |chain|
      ensures Link(sets, used0, chain[k], chain[l])
    {
      if l < |idxs| {
        assert Link(sets, used0, idxs[k], idxs[l]);
      }
    }
  }

  lemma ChainEnds(sets: seq<SeqSet>, used0: seq<bool>, used: seq<bool>, nUbatch: nat, idxs: seq<nat>)
    requires |used0| == |used| == |sets| && Chain(sets, used0, idxs)
    requires |idxs| == 1 || |idxs| <= nUbatch
    requires forall j | 0 <= j < |used| :: used[j] <==> used0[j] || j in idxs
    requires |idxs| >= nUbatch || forall j | idxs[|idxs| - 1] < j < |sets| ::
        used[j] || !(sets[j] <= sets[idxs[|idxs| - 1]])
    ensures SeqChain(sets, used0, nUbatch, idxs)
  {
    ChainCovers(sets, used0, idxs);
  }

  lemma ResetState(sets: seq<SeqSet>, output: seq<bool>)
    ensures Splitting(sets, output, Unused(|sets|), 0, [], map[], [])
  {
    NothingUsedTracks(sets);
    EmptyLedger(sets);
  }

  /** A plan's tokens divide evenly over its sets, and all are tokens of the batch. */
  lemma EqualGroups(sets: seq<SeqSet>, head0: Heads, head: Heads, p: Plan, emitted: seq<nat>, idxs: seq<nat>)
    requires Fits(sets, head0, p) && p.sets != [] && idxs == PlanIdxs(sets, head0, p)
    requires Ledger(sets, head, emitted + idxs)
    ensures |idxs| % |p.sets| == 0 && (0 < p.len ==> idxs != [])
    ensures forall k | 0 <= k < |idxs| :: idxs[k] < |sets|
  {
    PlanIdxsLength(sets, head0, p);
    EvenGroups(p.len, |p.sets|);
    forall k | 0 <= k < |idxs|
      ensures idxs[k] < |sets|
    {
      assert (emitted + idxs)[|emitted| + k] == idxs[k];
    }
  }

  class Allocr {
    var batch: Batch
    var nSeqMax: nat
    var hasCpl: bool
    var nOutputs: nat
    var seqSet: seq<SeqSet>
    var seqSetMap: map<SeqSet, seq<nat>>

    var used: seq<bool>
    var nUsed: nat
    var outIds: seq<nat>

    ghost var head: Heads
    ghost var emitted: seq<nat>

    ghost predicate Prepared()
      reads this
    {
      Tables(batch, seqSet, seqSetMap, hasCpl)
    }

    ghost predicate Valid()
      reads this
    {
      Prepared() && Splitting(seqSet, batch.output, used, nUsed, outIds, head, emitted)
    }

    constructor ()
    {
      batch := Batch([], [], []);
      seqSet, seqSetMap, used, outIds := [], map[], [], [];
      hasCpl, nOutputs, nUsed, nSeqMax := false, 0, 0, 0;
    }

    /** Accepts a batch exactly when its ids are in range, its positions go on from what is stored, miss
      * none (with one position per token) and never go back in a sequence, and coupled sequences stand
      * at one place. The check against partial sequence sub-sets never rejects anything. */
    method Init(b: Batch, maxSeqs: nat, memory: Memory, kind: Kind) returns (ok: bool)
      requires b.WellFormed() && b.seqIds != []
      modifies this
      ensures ok <==> b.Accepted(maxSeqs, memory, kind)
      ensures ok ==> Valid() && batch == b && emitted == [] && nUsed == 0 && outIds == []
      ensures ok ==> nOutputs == |set i | 0 <= i < |b.output| && b.output[i]|
    {
      batch, nSeqMax := b, maxSeqs;
      if maxSeqs > MAX_SEQ {
        return false;
      }
      ok := CheckIds(b, maxSeqs);
      if !ok {
        return;
      }
      nOutputs := CountOutputs(b.output);
      var seqPos, seqCpl;
      hasCpl, seqPos, seqCpl := FindCoupled(b, maxSeqs);
      BuildTables();
      ok := CheckPositions(b, maxSeqs, seqPos, memory, kind);
      if !ok {
        return;
      }
      ok := CheckCoupled(b, maxSeqs, seqCpl, memory);
      if !ok {
        return;
      }
      ok := CheckSequences(b, maxSeqs);
      if ok {
        SplitReset();
      }
    }

    method BuildTables()
      requires batch.WellFormed() && (hasCpl <==> batch.Coupled())
      modifies `seqSet, `seqSetMap
      ensures Prepared()
    {
      seqSet, seqSetMap := BuildSets(batch);
      forall i | 0 <= i < |seqSet|
        ensures seqSet[i] != {}
      {
        assert batch.seqIds[i][0] in seqSet[i];
      }
    }

    static method BuildSets(b: Batch) returns (sets: seq<SeqSet>, lists: map<SeqSet, seq<nat>>)
      ensures sets == b.Sets()
      ensures forall s :: ListedRight(sets, lists, s)
    {
      sets, lists := [], map[];
      for i := 0 to |b.seqIds|
        invariant sets == b.Sets()[..i]
        invariant forall s :: ListOf(lists, s) == MembersBelow(b.Sets(), s, i)
      {
        var cur: SeqSet := {};
        for s := 0 to |b.seqIds[i]|
          invariant cur == IdSet(b.seqIds[i][..s])
        {
          cur := cur + {b.seqIds[i][s]};
        }
        assert b.seqIds[i][..|b.seqIds[i]|] == b.seqIds[i];
        sets := sets + [cur];
        lists := lists[cur := ListOf(lists, cur) + [i]];
      }
      assert b.Sets()[..|b.seqIds|] == b.Sets();
    }

    method SplitReset()
      requires Prepared()
      modifies `used, `nUsed, `outIds, `head, `emitted
      ensures Valid() && emitted == [] && head == map[] && nUsed == 0 && outIds == []
      ensures used == Unused(|seqSet|)
    {
      outIds := [];
      nUsed := 0;
      used := Unused(|seqSet|);
      head, emitted := map[], [];
      ResetState(seqSet, batch.output);
    }

    /** Copies the rows idxs of a batch and lists those whose output is wanted. */
    static method GatherRows(b: Batch, idxs: seq<nat>)
      returns (ids: seq<seq<nat>>, pos: seq<int>, output: seq<bool>, wanted: seq<nat>)
      requires b.WellFormed() && forall k | 0 <= k < |idxs| :: idxs[k] < |b.seqIds|
      ensures |ids| == |pos| == |output| == |idxs|
      ensures forall k | 0 <= k < |idxs| ::
                ids[k] == b.seqIds[idxs[k]] && pos[k] == b.pos[idxs[k]] && output[k] == b.output[idxs[k]]
      ensures wanted == Flagged(b.output, idxs)
    {
      ids, pos, output, wanted := [], [], [], [];
      for i := 0 to |idxs|
        invariant |ids| == |pos| == |output| == i
        invariant forall k | 0 <= k < i ::
            ids[k] == b.seqIds[idxs[k]] && pos[k] == b.pos[idxs[k]] && output[k] == b.output[idxs[k]]
        invariant wanted == FlaggedTo(b.output, idxs, i)
      {
        ids, pos, output := ids + [b.seqIds[idxs[i]]], pos + [b.pos[idxs[i]]], output + [b.output[idxs[i]]];
        if b.output[idxs[i]] {
          wanted := wanted + [idxs[i]];
        }
      }
    }

    method UBatchAdd(idxs: seq<nat>, nSeqs: nat, equalSeqs: bool) returns (ub: UBatch)
      requires batch.WellFormed() && 0 < nSeqs && |idxs| % nSeqs == 0
      requires forall k | 0 <= k < |idxs| :: idxs[k] < |batch.seqIds|
      modifies `outIds, `emitted
      ensures Carries(batch, ub, idxs, nSeqs, equalSeqs)
      ensures outIds == old(outIds) + Flagged(batch.output, idxs)
      ensures emitted == old(emitted) + idxs
      ensures InProgress(seqSet, used, nUsed, head, emitted) && old(outIds == Flagged(batch.output, emitted)) ==>
                Splitting(seqSet, batch.output, used, nUsed, outIds, head, emitted)
    {
      FlaggedAppend(batch.output, emitted, idxs);
      var ids, pos, output, wanted := GatherRows(batch, idxs);
      outIds := outIds + wanted;
      emitted := emitted + idxs;
      ub := UBatch(idxs, nSeqs, |idxs| / nSeqs, equalSeqs, ids, pos, output);
    }

    method FindUnused() returns (curIdx: nat)
      ensures curIdx == FirstUnused(used, 0)
    {
      curIdx := 0;
      while curIdx < |used| && used[curIdx]
        invariant curIdx <= |used| && FirstUnused(used, 0) == FirstUnused(used, curIdx)
      {
        curIdx := curIdx + 1;
      }
    }

    /** A simple split takes a window of consecutive tokens without looking at their flags, so it
      * keeps the splitting state sound exactly when no token in the window was used before. */
    method SplitSimple(nUbatch: nat) returns (ub: UBatch)
      requires Valid()
      modifies `used, `nUsed, `outIds, `head, `emitted
      ensures Prepared()
      ensures FirstUnused(old(used), 0) == |seqSet| ==>
                ub == NO_UBATCH && used == old(used) && nUsed == old(nUsed) && outIds == old(outIds) && Valid()
                && emitted == old(emitted) && head == old(head)
      ensures FirstUnused(old(used), 0) < |seqSet| ==>
                var m, e := FirstUnused(old(used), 0), WindowEnd(old(used), nUbatch);
                && Carries(batch, ub, Range(m, e), e - m, false)
                && used == Marked(old(used), e) && nUsed == old(nUsed) + (e - m)
                && emitted == old(emitted) + Range(m, e)
                && outIds == old(outIds) + Flagged(batch.output, Range(m, e))
                && (Valid() <==> AllUnused(old(used), m, e))
                && WindowOf(old(used), ub.idxs, nUbatch)
    {
      var curIdx := FindUnused();
      if curIdx >= |used| {
        return NO_UBATCH;
      }
      WindowIsLongest(used, nUbatch);
      var idxs := TakeWindow(curIdx, nUbatch);
      ub := UBatchAdd(idxs, |idxs|, false);
    }

    method TakeWindow(m: nat, nUbatch: nat) returns (idxs: seq<nat>)
      requires Tracks(seqSet, used, head) && Ledger(seqSet, head, emitted) && nUsed == CountTrue(used)
      requires m == FirstUnused(used, 0) < |used|
      modifies `used, `nUsed, `head
      ensures idxs == Range(m, WindowEnd(old(used), nUbatch))
      ensures WindowState(seqSet, old(used), old(nUsed), m, WindowEnd(old(used), nUbatch),
                          used, nUsed, head, emitted + idxs)
    {
      idxs := [];
      var curIdx := m;
      assert emitted + [] == emitted;
      MarkedPrefix(used, m);
      while true
        invariant m <= curIdx < |old(used)| && (curIdx == m || curIdx - m < nUbatch)
        invariant idxs == Range(m, curIdx)
        invariant WindowState(seqSet, old(used), old(nUsed), m, curIdx, used, nUsed, head, emitted + idxs)
        decreases |old(used)| - curIdx
      {
        WindowStep(seqSet, old(used), old(nUsed), m, curIdx, used, nUsed, head, emitted, idxs);
        head := head[seqSet[curIdx] := At(head, seqSet[curIdx]) + 1];
        idxs := idxs + [curIdx];
        used := used[curIdx := true];
        nUsed := nUsed + 1;
        curIdx := curIdx + 1;
        if curIdx >= |used| {
          break;
        }
        if |idxs| >= nUbatch {
          break;
        }
      }
    }

    /** A sequence-set split follows a chain of shrinking sequence sets. */
    method SplitSeq(nUbatch: nat) returns (ub: UBatch)
      requires Valid()
      modifies `used, `nUsed, `outIds, `head, `emitted
      ensures Valid() && emitted == old(emitted) + ub.idxs
      ensures FirstUnused(old(used), 0) == |seqSet| ==> ub == NO_UBATCH && used == old(used) && head == old(head)
      ensures FirstUnused(old(used), 0) < |seqSet| ==>
                && SeqChain(seqSet, old(used), nUbatch, ub.idxs)
                && Carries(batch, ub, ub.idxs, 1, true)
    {
      var curIdx := FindUnused();
      if curIdx >= |used| {
        return NO_UBATCH;
      }
      var idxs := TakeChain(curIdx, nUbatch);
      assert |seqSet| == |batch.seqIds|;
      ub := UBatchAdd(idxs, 1, true);
    }

    method TakeChain(start: nat, nUbatch: nat) returns (idxs: seq<nat>)
      requires Tracks(seqSet, used, head) && Ledger(seqSet, head, emitted) && nUsed == CountTrue(used)
      requires start == FirstUnused(used, 0) < |used|
      modifies `used, `nUsed, `head
      ensures SeqChain(seqSet, old(used), nUbatch, idxs)
      ensures InProgress(seqSet, used, nUsed, head, emitted + idxs)
    {
      idxs := [];
      var curIdx := start;
      var curSeqSet := seqSet[curIdx];
      assert emitted + [] == emitted;
      while true
        invariant curIdx < |used| == |seqSet| && curSeqSet == seqSet[curIdx]
        invariant ChainState(seqSet, old(used), used, nUsed, head, emitted, idxs)
        invariant Chain(seqSet, old(used), idxs + [curIdx])
        invariant idxs == [] || |idxs| < nUbatch
        decreases |used| - curIdx
      {
        ChainTake(seqSet, old(used), used, nUsed, head, emitted, idxs, curIdx);
        head := head[seqSet[curIdx] := At(head, seqSet[curIdx]) + 1];
        idxs := idxs + [curIdx];
        used := used[curIdx := true];
        nUsed := nUsed + 1;
        if |idxs| >= nUbatch {
          break;
        }
        curIdx := NextInChain(curIdx, curSeqSet);
        if curIdx == |used| {
          break;
        }
        ChainExtend(seqSet, old(used), used, idxs, curIdx);
        curSeqSet := seqSet[curIdx];
      }
      ChainEnds(seqSet, old(used), used, nUbatch, idxs);
    }

    /** The next unused token after i whose set is contained in s. */
    method NextInChain(i: nat, s: SeqSet) returns (next: nat)
      requires i < |used| == |seqSet|
      ensures i < next <= |used|
      ensures forall j | i < j < next :: used[j] || !(seqSet[j] <= s)
      ensures next < |used| ==> !used[next] && seqSet[next] <= s
    {
      next := i + 1;
      while next < |used| && (used[next] || s * seqSet[next] != seqSet[next])
        invariant i < next <= |used|
        invariant forall j | i < j < next :: used[j] || !(seqSet[j] <= s)
      {
        assert seqSet[next] <= s ==> s * seqSet[next] == seqSet[next];
        next := next + 1;
      }
      assert next < |used| ==> seqSet[next] == s * seqSet[next];
    }

    /** An equal split: the one-token-a-round loop, the deferral, extension and truncation rules and
      * the giving back of tokens come to exactly the closed-form plan. */
    method SplitEqual(nUbatch: nat, sequential: bool, nKeepTail: nat) returns (ub: UBatch)
      requires Valid()
      requires nKeepTail == 0 || nKeepTail < nUbatch || (sequential && hasCpl) || FirstUnused(used, 0) == |used|
      modifies `used, `nUsed, `outIds, `head, `emitted
      ensures Valid() && emitted == old(emitted) + ub.idxs
      ensures (sequential && hasCpl) || FirstUnused(old(used), 0) == |seqSet| ==>
                ub == NO_UBATCH && used == old(used) && head == old(head)
      ensures !(sequential && hasCpl) && FirstUnused(old(used), 0) < |seqSet| ==>
                && Chosen(seqSet, FirstIds(batch), old(used), nUbatch, sequential) != []
                && var p := NextPlan(seqSet, FirstIds(batch), old(used), old(head), nUbatch, sequential, nKeepTail);
                   && PlanOk(seqSet, old(head), p) && p.sets != [] && ub.idxs != []
                   && Carries(batch, ub, PlanIdxs(seqSet, old(head), p), |p.sets|, true)
                   && head == Advance(old(head), p)
                   && EqualSplitOf(seqSet, FirstIds(batch), old(used), ub.idxs, nUbatch, sequential, nKeepTail)
    {
      if sequential && hasCpl {
        return NO_UBATCH;
      }
      LeadersProgress(seqSet, FirstIds(batch), used, nUbatch, sequential);
      var chosen := ChooseSets(nUbatch, sequential);
      if |chosen| == 0 {
        return NO_UBATCH;
      }
      ghost var p := NextPlan(seqSet, FirstIds(batch), used, head, nUbatch, sequential, nKeepTail);
      ChosenSound(seqSet, FirstIds(batch), used, head, nUbatch, sequential);
      assert EqualSplitOf(seqSet, FirstIds(batch), used, PlanIdxs(seqSet, head, p), nUbatch, sequential, nKeepTail) by {
        PlanObeys(seqSet, FirstIds(batch), used, head, nUbatch, sequential, nKeepTail);
      }
      ub := EmitPlan(chosen, nUbatch, nKeepTail, p);
    }

    method EmitPlan(chosen: seq<SeqSet>, nUbatch: nat, nKeepTail: nat, ghost p: Plan) returns (ub: UBatch)
      requires Valid()
      requires chosen != [] && NoDuplicates(chosen) && AllRemain(seqSet, head, chosen)
      requires nKeepTail == 0 || nKeepTail < nUbatch
      requires p == PlanFor(seqSet, head, chosen, nUbatch, nKeepTail)
      modifies `used, `nUsed, `outIds, `head, `emitted
      ensures Valid() && emitted == old(emitted) + ub.idxs
      ensures PlanOk(seqSet, old(head), p) && p.sets != [] && head == Advance(old(head), p)
      ensures ub.idxs != []
      ensures Carries(batch, ub, PlanIdxs(seqSet, old(head), p), |p.sets|, true)
    {
      PlanForOk(seqSet, head, chosen, nUbatch, nKeepTail);
      PlanKeepsLedger(seqSet, head, p, emitted);
      var groups := TakeGroups(chosen, nUbatch, nKeepTail, p);
      var idxs := Concat(groups, seqSet, p, old(head));
      EqualGroups(seqSet, old(head), head, p, emitted, idxs);
      ub := UBatchAdd(idxs, |groups|, true);
    }

    static method OverlapsNone(chosen: seq<SeqSet>, s: SeqSet) returns (add: bool)
      ensures add <==> forall k | 0 <= k < |chosen| :: chosen[k] !! s
    {
      for k := 0 to |chosen|
        invariant forall l | 0 <= l < k :: chosen[l] !! s
      {
        DisjointIffNoneShared(chosen[k], s);
        if chosen[k] * s != {} {
          return false;
        }
      }
      add := true;
    }

    /** The non-overlapping sequence sets taking part in the next micro-batch. */
    method ChooseSets(nUbatch: nat, sequential: bool) returns (curSeqSet: seq<SeqSet>)
      requires Prepared() && |used| == |seqSet|
      ensures curSeqSet == Chosen(seqSet, FirstIds(batch), used, nUbatch, sequential)
    {
      curSeqSet := [];
      ghost var first := FirstIds(batch);
      ghost var leaders: seq<nat> := [];
      var lastSeqId: int := -1;
      var i := 0;
      while i < |used|
        invariant i <= |used| == |seqSet| == |batch.seqIds|
        invariant forall k | 0 <= k < |leaders| :: leaders[k] < i
        invariant curSeqSet == SetsOf(seqSet, leaders)
        invariant leaders != [] ==> lastSeqId == first[leaders[|leaders| - 1]]
        invariant LeadersFrom(seqSet, first, used, nUbatch, sequential, i, leaders)
               == LeadersFrom(seqSet, first, used, nUbatch, sequential, 0, [])
      {
        if !used[i] {
          var add := OverlapsNone(curSeqSet, seqSet[i]);
          if sequential {
            add := add && (|curSeqSet| == 0 || batch.seqIds[i][0] == lastSeqId + 1);
          }
          assert add <==> Admissible(seqSet, first, leaders, i, sequential);
          if add {
            curSeqSet := curSeqSet + [seqSet[i]];
            leaders := leaders + [i];
            lastSeqId := batch.seqIds[i][0];
            if |curSeqSet| > nUbatch {
              assert leaders == LeadersFrom(seqSet, first, used, nUbatch, sequential, 0, []);
              return;
            }
          }
        }
        i := i + 1;
      }
    }

    /** Takes the tokens of the next micro-batch set by set and settles which sets it serves. */
    method TakeGroups(chosen: seq<SeqSet>, nUbatch: nat, nKeepTail: nat, ghost p: Plan) returns (groups: seq<seq<nat>>)
      requires Prepared() && Tracks(seqSet, used, head) && nUsed == CountTrue(used)
      requires chosen != [] && NoDuplicates(chosen) && AllRemain(seqSet, head, chosen)
      requires nKeepTail == 0 || nKeepTail < nUbatch
      requires p == PlanFor(seqSet, head, chosen, nUbatch, nKeepTail)
      modifies `used, `nUsed, `head
      ensures Tracks(seqSet, used, head) && nUsed == CountTrue(used)
      ensures PlanOk(seqSet, old(head), p) && p.sets != [] && head == Advance(old(head), p)
      ensures Groups(seqSet, old(head), p.sets, p.len, groups)
    {
      var curIdx := FirstUnusedPerSet(chosen);
      assert EqualState(seqSet, used, nUsed, head, head, chosen, curIdx);
      var idxsPerSeq;
      idxsPerSeq, curIdx := Expand(chosen, curIdx, nUbatch, head);
      PlanForOk(seqSet, old(head), chosen, nUbatch, nKeepTail);
      ghost var len := Rounds(seqSet, old(head), chosen, nUbatch);
      if nKeepTail > 0 {
        groups := KeepTails(chosen, idxsPerSeq, curIdx, nUbatch, nKeepTail, old(head), len, p);
      } else {
        RoundedDefers(seqSet, used, nUsed, old(head), head, chosen, |chosen|, len, curIdx, idxsPerSeq);
        DeferDone(seqSet, used, nUsed, old(head), head, chosen, |chosen|, len, len, curIdx);
        assert chosen[..|chosen|] == chosen;
        head := Advance(old(head), p);
        groups := idxsPerSeq;
      }
    }

    /** Keeps only sets that finish here or leave a full tail, and defers the others. */
    method KeepTails(chosen: seq<SeqSet>, start: seq<seq<nat>>, startIdx: seq<nat>, nUbatch: nat, nKeepTail: nat,
                     ghost head0: Heads, ghost len: nat, ghost p: Plan)
      returns (groups: seq<seq<nat>>)
      requires Prepared() && chosen != [] && AllRemain(seqSet, head0, chosen) && 0 < nKeepTail < nUbatch
      requires len == Rounds(seqSet, head0, chosen, nUbatch)
      requires p == PlanFor(seqSet, head0, chosen, nUbatch, nKeepTail)
      requires Rounded(seqSet, used, nUsed, head0, head, chosen, len, startIdx, start)
      modifies `used, `nUsed, `head
      ensures Tracks(seqSet, used, head) && nUsed == CountTrue(used) && head == Advance(head0, p)
      ensures Groups(seqSet, head0, p.sets, p.len, groups)
    {
      PlanForKept(seqSet, head0, chosen, nUbatch, nKeepTail);
      var nKeep := CountKept(chosen, start, startIdx, nKeepTail, head0, len);
      if nKeep == 0 {
        var idxsPerSeq, curIdx := ResolveFirst(chosen, start, startIdx, nUbatch, nKeepTail, head0, len);
        FirstDefers(seqSet, used, nUsed, head0, head, chosen, len, p.len, startIdx, curIdx, idxsPerSeq[0]);
        forall s | 1 <= s < |chosen|
          ensures IsGroup(seqSet, head0, chosen[s], len, idxsPerSeq[s])
        {
          assert idxsPerSeq[s] == idxsPerSeq[1..][s - 1] == start[1..][s - 1] == start[s];
          assert IsGroup(seqSet, head0, chosen[s], len, start[s]);
        }
        SingleGroup(seqSet, head0, chosen, p.len, idxsPerSeq);
        DeferFrom(1, chosen, idxsPerSeq, curIdx, head0, len, p.len);
        groups := idxsPerSeq[..1];
      } else {
        RoundedDefers(seqSet, used, nUsed, head0, head, chosen, nKeep, len, startIdx, start);
        DeferFrom(nKeep, chosen, start, startIdx, head0, len, len);
        GroupsPrefix(seqSet, head0, chosen, len, start, nKeep);
        groups := start[..nKeep];
      }
    }

    method FirstUnusedPerSet(chosen: seq<SeqSet>) returns (curIdx: seq<nat>)
      requires Prepared() && Tracks(seqSet, used, head) && AllRemain(seqSet, head, chosen)
      ensures |curIdx| == |chosen| && forall s | 0 <= s < |chosen| :: curIdx[s] == At(head, chosen[s])
    {
      curIdx := [];
      for s := 0 to |chosen|
        invariant |curIdx| == s && forall t | 0 <= t < s :: curIdx[t] == At(head, chosen[t])
      {
        assert ListedRight(seqSet, seqSetMap, chosen[s]);
        var list := ListOf(seqSetMap, chosen[s]);
        assert 0 < Remaining(seqSet, head, chosen[s]);
        var k := 0;
        MemberUsed(seqSet, used, head, chosen[s], k);
        while used[list[k]]
          invariant k <= At(head, chosen[s]) && list[k] < |used|
          invariant used[list[k]] <==> k < At(head, chosen[s])
          decreases At(head, chosen[s]) - k
        {
          k := k + 1;
          MemberUsed(seqSet, used, head, chosen[s], k);
        }
        curIdx := curIdx + [k];
      }
    }

    /** Adds one token per set and round while every set has one and n_ubatch leaves room. */
    method Expand(chosen: seq<SeqSet>, start: seq<nat>, nUbatch: nat, ghost head0: Heads)
      returns (idxsPerSeq: seq<seq<nat>>, curIdx: seq<nat>)
      requires Prepared() && chosen != [] && AllRemain(seqSet, head0, chosen)
      requires EqualState(seqSet, used, nUsed, head0, head, chosen, start)
      requires AtLen(head0, chosen, 0, start)
      modifies `used, `nUsed, `head
      ensures var len := Rounds(seqSet, head0, chosen, nUbatch);
              0 < len && Rounded(seqSet, used, nUsed, head0, head, chosen, len, curIdx, idxsPerSeq)
    {
      var n := |chosen|;
      ghost var min := MinRemaining(seqSet, head0, chosen);
      MinRemainingIsMin(seqSet, head0, chosen);
      curIdx := start;
      idxsPerSeq := seq(n, _ => []);
      ghost var k := 0;
      EmptyGroups(seqSet, head0, chosen, idxsPerSeq);
      var more := true;
      while more
        invariant k <= min && if more then MayContinue(nUbatch, n, k) else RoundsOver(nUbatch, n, k, min)
        invariant Rounded(seqSet, used, nUsed, head0, head, chosen, k, curIdx, idxsPerSeq)
        decreases min - k, more
      {
        var canExpand := CanExpand(chosen, curIdx, head0, k);
        if !canExpand {
          RoundsStop(nUbatch, n, k, min);
          more := false;
        } else {
          idxsPerSeq, curIdx := Round(chosen, idxsPerSeq, curIdx, head0, k);
          more := RoomForAnother(chosen, idxsPerSeq, nUbatch, head0, k, min);
          k := k + 1;
        }
      }
      RoundsAre(seqSet, head0, chosen, nUbatch, k);
    }

    /** Would another token per set still fit into n_ubatch? */
    method RoomForAnother(chosen: seq<SeqSet>, idxsPerSeq: seq<seq<nat>>, nUbatch: nat, ghost head0: Heads,
                          ghost k: nat, ghost min: int)
      returns (room: bool)
      requires chosen != [] && k < min && MayContinue(nUbatch, |chosen|, k)
      requires Groups(seqSet, head0, chosen, k + 1, idxsPerSeq)
      ensures if room then MayContinue(nUbatch, |chosen|, k + 1) else RoundsOver(nUbatch, |chosen|, k + 1, min)
    {
      assert IsGroup(seqSet, head0, chosen[0], k + 1, idxsPerSeq[0]);
      RoundsGo(nUbatch, |chosen|, k, min, |idxsPerSeq[0]|);
      room := !((|idxsPerSeq[0]| + 1) * |chosen| > nUbatch);
    }

    method CanExpand(chosen: seq<SeqSet>, curIdx: seq<nat>, ghost head0: Heads, ghost k: nat) returns (can: bool)
      requires Prepared() && chosen != [] && AtLen(head0, chosen, k, curIdx)
      ensures can <==> k < MinRemaining(seqSet, head0, chosen)
    {
      MinRemainingIsMin(seqSet, head0, chosen);
      can := true;
      for s := 0 to |chosen|
        invariant forall t | 0 <= t < s :: k < Remaining(seqSet, head0, chosen[t])
      {
        assert ListedRight(seqSet, seqSetMap, chosen[s]);
        if curIdx[s] >= |ListOf(seqSetMap, chosen[s])| {
          return false;
        }
      }
    }

    /** One round: the next token of every chosen set. */
    method Round(chosen: seq<SeqSet>, groups: seq<seq<nat>>, cur: seq<nat>, ghost head0: Heads, ghost k: nat)
      returns (idxsPerSeq: seq<seq<nat>>, curIdx: seq<nat>)
      requires Prepared() && chosen != [] && k < MinRemaining(seqSet, head0, chosen)
      requires Rounded(seqSet, used, nUsed, head0, head, chosen, k, cur, groups)
      modifies `used, `nUsed, `head
      ensures Rounded(seqSet, used, nUsed, head0, head, chosen, k + 1, curIdx, idxsPerSeq)
    {
      MinRemainingIsMin(seqSet, head0, chosen);
      idxsPerSeq, curIdx := groups, cur;
      RoundStart(seqSet, used, nUsed, head0, head, chosen, k, curIdx, idxsPerSeq);
      for s := 0 to |chosen|
        invariant MidRound(seqSet, used, nUsed, head0, head, chosen, k, s, curIdx, idxsPerSeq)
      {
        idxsPerSeq, curIdx := TakeOne(chosen, s, idxsPerSeq, curIdx, head0, k);
      }
      RoundEnd(seqSet, used, nUsed, head0, head, chosen, k, curIdx, idxsPerSeq);
    }

    /** The next token of one chosen set. */
    method TakeOne(chosen: seq<SeqSet>, s: nat, groups: seq<seq<nat>>, cur: seq<nat>, ghost head0: Heads, ghost k: nat)
      returns (idxsPerSeq: seq<seq<nat>>, curIdx: seq<nat>)
      requires Prepared() && s < |chosen| && k < Remaining(seqSet, head0, chosen[s])
      requires MidRound(seqSet, used, nUsed, head0, head, chosen, k, s, cur, groups)
      modifies `used, `nUsed, `head
      ensures MidRound(seqSet, used, nUsed, head0, head, chosen, k, s + 1, curIdx, idxsPerSeq)
    {
      RoundStep(seqSet, used, nUsed, head0, head, chosen, k, s, cur, groups);
      assert ListedRight(seqSet, seqSetMap, chosen[s]);
      var idx := ListOf(seqSetMap, chosen[s])[cur[s]];
      idxsPerSeq := groups[s := groups[s] + [idx]];
      used := used[idx := true];
      nUsed := nUsed + 1;
      head := head[chosen[s] := cur[s] + 1];
      curIdx := cur[s := cur[s] + 1];
    }

    /** The longest prefix of sets that finish here or keep a full tail. */
    method CountKept(chosen: seq<SeqSet>, ghost groups: seq<seq<nat>>, curIdx: seq<nat>, nKeepTail: nat,
                     ghost head0: Heads, ghost len: nat)
      returns (nKeep: nat)
      requires Prepared() && AtLen(head0, chosen, len, curIdx) && Groups(seqSet, head0, chosen, len, groups)
      ensures nKeep == KeepCount(seqSet, head0, chosen, len, nKeepTail)
    {
      nKeep := 0;
      while nKeep < |chosen|
        invariant nKeep <= |chosen|
        invariant KeepCount(seqSet, head0, chosen, len, nKeepTail)
               == KeepCountFrom(seqSet, head0, chosen, len, nKeepTail, nKeep)
      {
        assert ListedRight(seqSet, seqSetMap, chosen[nKeep])
            && IsGroup(seqSet, head0, chosen[nKeep], len, groups[nKeep]);
        var remaining := |ListOf(seqSetMap, chosen[nKeep])| - curIdx[nKeep];
        if remaining != 0 && remaining < nKeepTail {
          break;
        }
        nKeep := nKeep + 1;
      }
    }

    /** No set may be cut here: finish the first one if it fits, else shorten it to leave its tail. */
    method ResolveFirst(chosen: seq<SeqSet>, groups: seq<seq<nat>>, cur: seq<nat>, nUbatch: nat, nKeepTail: nat,
                        ghost head0: Heads, ghost len: nat)
      returns (idxsPerSeq: seq<seq<nat>>, curIdx: seq<nat>)
      requires Prepared() && chosen != [] && nKeepTail < nUbatch
      requires Rounded(seqSet, used, nUsed, head0, head, chosen, len, cur, groups)
      requires !TailKept(seqSet, head0, chosen[0], len, nKeepTail)
      modifies `used, `nUsed, `head
      ensures |idxsPerSeq| == |chosen| && idxsPerSeq[1..] == groups[1..]
      ensures var r := Remaining(seqSet, head0, chosen[0]);
              var len' := if r <= nUbatch then r else r - nKeepTail;
              && FirstSet(seqSet, used, nUsed, head0, head, chosen, cur, curIdx, idxsPerSeq[0])
              && curIdx[0] == At(head0, chosen[0]) + len'
    {
      assert IsGroup(seqSet, head0, chosen[0], len, groups[0]);
      assert ListedRight(seqSet, seqSetMap, chosen[0]);
      ghost var h, r := At(head0, chosen[0]), Remaining(seqSet, head0, chosen[0]);
      curIdx := cur;
      var idxs := groups[0];
      if |idxs| + (|ListOf(seqSetMap, chosen[0])| - curIdx[0]) <= nUbatch {
        idxs, curIdx := FinishFirst(chosen, idxs, cur, head0);
      } else {
        idxs, curIdx := ShortenFirst(chosen, idxs, cur, nKeepTail, head0);
      }
      idxsPerSeq := groups[0 := idxs];
    }

    method FinishFirst(chosen: seq<SeqSet>, group: seq<nat>, cur: seq<nat>, ghost head0: Heads)
      returns (idxs: seq<nat>, curIdx: seq<nat>)
      requires Prepared() && chosen != [] && ListedRight(seqSet, seqSetMap, chosen[0])
      requires FirstSet(seqSet, used, nUsed, head0, head, chosen, cur, cur, group)
      modifies `used, `nUsed, `head
      ensures FirstSet(seqSet, used, nUsed, head0, head, chosen, cur, curIdx, idxs)
      ensures curIdx[0] == |Members(seqSet, chosen[0])|
    {
      idxs, curIdx := group, cur;
      while |ListOf(seqSetMap, chosen[0])| - curIdx[0] > 0
        invariant FirstSet(seqSet, used, nUsed, head0, head, chosen, cur, curIdx, idxs)
      {
        FirstGrows(seqSet, used, nUsed, head0, head, chosen, cur, curIdx, idxs);
        var idx := ListOf(seqSetMap, chosen[0])[curIdx[0]];
        idxs := idxs + [idx];
        used := used[idx := true];
        nUsed := nUsed + 1;
        head := head[chosen[0] := curIdx[0] + 1];
        curIdx := curIdx[0 := curIdx[0] + 1];
      }
    }

    method ShortenFirst(chosen: seq<SeqSet>, group: seq<nat>, cur: seq<nat>, nKeepTail: nat, ghost head0: Heads)
      returns (idxs: seq<nat>, curIdx: seq<nat>)
      requires Prepared() && chosen != [] && ListedRight(seqSet, seqSetMap, chosen[0])
      requires FirstSet(seqSet, used, nUsed, head0, head, chosen, cur, cur, group)
      requires nKeepTail < Remaining(seqSet, head0, chosen[0])
      requires Remaining(seqSet, head0, chosen[0]) - (cur[0] - At(head0, chosen[0])) <= nKeepTail
      modifies `used, `nUsed, `head
      ensures FirstSet(seqSet, used, nUsed, head0, head, chosen, cur, curIdx, idxs)
      ensures curIdx[0] == |Members(seqSet, chosen[0])| - nKeepTail
    {
      ghost var h, r := At(head0, chosen[0]), Remaining(seqSet, head0, chosen[0]);
      idxs, curIdx := group, cur;
      while |ListOf(seqSetMap, chosen[0])| - curIdx[0] < nKeepTail
        invariant FirstSet(seqSet, used, nUsed, head0, head, chosen, cur, curIdx, idxs)
        invariant nKeepTail < r && r - (curIdx[0] - h) <= nKeepTail
        decreases curIdx[0]
      {
        FirstShrinks(seqSet, used, nUsed, head0, head, chosen, cur, curIdx, idxs);
        used := used[idxs[|idxs| - 1] := false];
        nUsed := nUsed - 1;
        idxs := idxs[..|idxs| - 1];
        head := head[chosen[0] := curIdx[0] - 1];
        curIdx := curIdx[0 := curIdx[0] - 1];
      }
    }

    /** Returns the tokens of the sets from nKeep on to the pool, each list front to back. */
    method DeferFrom(nKeep: nat, chosen: seq<SeqSet>, idxsPerSeq: seq<seq<nat>>,
                     ghost start: seq<nat>, ghost head0: Heads, ghost len: nat, ghost kept: nat)
      requires nKeep <= |chosen| == |idxsPerSeq|
      requires Deferring(seqSet, used, nUsed, head0, head, chosen, nKeep, kept, nKeep, len, start)
      requires forall s | nKeep <= s < |chosen| :: IsGroup(seqSet, head0, chosen[s], len, idxsPerSeq[s])
      modifies `used, `nUsed, `head
      ensures head == Advance(head0, Plan(chosen[..nKeep], kept))
      ensures Tracks(seqSet, used, head) && nUsed == CountTrue(used)
    {
      ghost var cur: seq<nat> := start;
      for s := nKeep to |chosen|
        invariant Deferring(seqSet, used, nUsed, head0, head, chosen, nKeep, kept, s, len, cur)
      {
        DeferStep(seqSet, used, nUsed, head0, head, chosen, nKeep, kept, s, len, cur, idxsPerSeq[s]);
        GiveBackAll(idxsPerSeq[s]);
        head := head[chosen[s] := At(head0, chosen[s])];
        cur := cur[s := At(head0, chosen[s])];
      }
      DeferDone(seqSet, used, nUsed, head0, head, chosen, nKeep, kept, len, cur);
      head := Advance(head0, Plan(chosen[..nKeep], kept));
    }

    method GiveBackAll(xs: seq<nat>)
      requires |xs| <= nUsed && forall k | 0 <= k < |xs| :: xs[k] < |used|
      modifies `used, `nUsed
      ensures used == Cleared(old(used), xs) && nUsed == old(nUsed) - |xs|
    {
      for j := 0 to |xs|
        invariant used == Cleared(old(used), xs[..j]) && nUsed == old(nUsed) - j
      {
        assert xs[..j + 1][..j] == xs[..j];
        used := used[xs[j] := false];
        nUsed := nUsed - 1;
      }
      assert xs[..|xs|] == xs;
    }

    /** Concatenates the per-set lists. */
    static method Concat(groups: seq<seq<nat>>, ghost sets: seq<SeqSet>, ghost p: Plan, ghost head0: Heads)
      returns (idxs: seq<nat>)
      requires Fits(sets, head0, p) && Groups(sets, head0, p.sets, p.len, groups)
      ensures idxs == PlanIdxs(sets, head0, p)
    {
      idxs := [];
      for s := 0 to |groups|
        invariant idxs == PlanIdxsTo(sets, head0, p, s)
      {
        assert IsGroup(sets, head0, p.sets[s], p.len, groups[s]);
        idxs := idxs + groups[s];
      }
    }
  }
}
