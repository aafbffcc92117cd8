/** Whole decode calls on one context: what each exit leaves behind, and what reads give back after any
  * sequence of calls.
  */
module Decoding {
  import opened Batches
  import opened BatchTokens
  import opened Sequences
  import opened BatchAllocr
  import opened SplitDriver
  import opened OutputRows

  /** How a decode call ends: before anything is touched, before rows are reserved, at a micro-batch that
    * failed, or well. */
  datatype Exit = Refused | NoRoom | Aborted(at: nat) | Done

  /** One call to decode. finds says whether the memory module has room for the batch, compute what the graph
    * yields for each token and succeeds which micro-batches it gets through; sequences in samplers are
    * sampled on the backend, with at most maxOutputs outputs each. */
  datatype Request<!T> = Request(b: Batch, memory: Memory, kind: Kind, mode: SplitMode, samplers: set<nat>,
                                 maxOutputs: nat, finds: bool, compute: nat -> seq<T>, succeeds: nat -> bool)
  {
    ghost predicate WellFormed(nVocab: nat, nBatch: nat, nUbatch: nat) {
      && b.WellFormed() && b.seqIds != [] && |b.seqIds| <= nBatch && ModeAllowed(mode, nUbatch)
      && forall t :: |compute(t)| == nVocab
    }

    /** The batch gets past the checks made before the split. */
    ghost predicate Served(nSeqMax: nat)
      requires b.WellFormed()
    {
      SamplersServe(b, nSeqMax, samplers, maxOutputs) && b.Accepted(nSeqMax, memory, kind)
    }

    /** The batch can be split, and placed in memory. */
    ghost predicate Placed()
      requires b.WellFormed()
    {
      !(mode.Equal? && mode.sequential && b.Coupled()) && finds
    }
  }

  // ---- the limit of backend sampling ---------------------------------------------------

  /** How often sequence x is named by a wanted token among the first n. */
  function OutputEntries(b: Batch, x: nat, n: nat): nat
    requires n <= |b.seqIds| == |b.output|
  {
    if n == 0 then 0
    else OutputEntries(b, x, n - 1) + if b.output[n - 1] then multiset(b.seqIds[n - 1])[x] else 0
  }

  lemma {:induction false} EntriesGrow(b: Batch, x: nat, m: nat, n: nat)
    requires m <= n <= |b.seqIds| == |b.output|
    ensures OutputEntries(b, x, m) <= OutputEntries(b, x, n)
    decreases n
  {
    if m < n {
      EntriesGrow(b, x, m, n - 1);
    }
  }

  /** No sequence sampled on the backend has more outputs than that allows. */
  ghost predicate SamplersServe(b: Batch, nSeqMax: nat, samplers: set<nat>, maxOutputs: nat)
    requires b.WellFormed()
  {
    forall x: nat | x < nSeqMax && x in samplers && 0 < OutputEntries(b, x, |b.seqIds|) ::
      OutputEntries(b, x, |b.seqIds|) <= maxOutputs
  }

  method CheckSamplers(b: Batch, nSeqMax: nat, samplers: set<nat>, maxOutputs: nat) returns (ok: bool)
    requires b.WellFormed()
    ensures ok <==> SamplersServe(b, nSeqMax, samplers, maxOutputs)
  {
    var count: seq<nat> := seq(nSeqMax, _ => 0);
    for i := 0 to |b.seqIds|
      invariant |count| == nSeqMax && forall x: nat | x < nSeqMax :: count[x] == OutputEntries(b, x, i)
      invariant forall x: nat | x < nSeqMax && x in samplers :: OutputEntries(b, x, i) <= maxOutputs
    {
      if b.output[i] {
        ok, count := CountToken(b, nSeqMax, samplers, maxOutputs, i, count);
        if !ok {
          return;
        }
      }
    }
    ok := true;
  }

  method CountToken(b: Batch, nSeqMax: nat, samplers: set<nat>, maxOutputs: nat, i: nat, count0: seq<nat>)
    returns (ok: bool, count: seq<nat>)
    requires b.WellFormed() && i < |b.seqIds| && b.output[i] && |count0| == nSeqMax
    requires forall x: nat | x < nSeqMax :: count0[x] == OutputEntries(b, x, i)
    requires forall x: nat | x < nSeqMax && x in samplers :: OutputEntries(b, x, i) <= maxOutputs
    ensures |count| == nSeqMax
    ensures ok ==> forall x: nat | x < nSeqMax :: count[x] == OutputEntries(b, x, i + 1)
    ensures ok ==> forall x: nat | x < nSeqMax && x in samplers :: OutputEntries(b, x, i + 1) <= maxOutputs
    ensures !ok ==> !SamplersServe(b, nSeqMax, samplers, maxOutputs)
  {
    var ids := b.seqIds[i];
    count := count0;
    for s := 0 to |ids|
      invariant |count| == nSeqMax
      invariant forall x: nat | x < nSeqMax :: count[x] == count0[x] + multiset(ids[..s])[x]
      invariant forall x: nat | x < nSeqMax && x in samplers :: count[x] <= maxOutputs
    {
      var x := ids[s];
      assert ids[..s + 1] == ids[..s] + [x];
      if x < nSeqMax {
        count := count[x := count[x] + 1];
        if x in samplers && count[x] > maxOutputs {
          assert ids == ids[..s + 1] + ids[s + 1..];
          EntriesGrow(b, x, i + 1, |b.seqIds|);
          return false, count;
        }
      }
    }
    assert ids[..|ids|] == ids;
    ok := true;
  }

  // ---- one call ------------------------------------------------------------------------

  /** The wanted tokens in the order in which they were computed. */
  function ComputedOrder(b: Batch, ubs: seq<UBatch>): seq<nat> {
    Flagged(b.output, RowsTo(ubs, |ubs|))
  }

  /** Token t's micro-batch copied its logits to the host. */
  ghost predicate Copied(b: Batch, ubs: seq<UBatch>, samplers: set<nat>, t: nat)
    requires WellSized(ubs)
  {
    CopiedBy(b.output, ubs, samplers, |ubs|, t)
  }

  /** The row of each wanted token: its own logits if they were copied, else what the buffer held there when
    * the decode began. */
  ghost predicate RowsKnown<T>(b: Batch, ubs: seq<UBatch>, samplers: set<nat>, compute: nat -> seq<T>,
                               left: seq<seq<T>>, rows: nat -> seq<T>)
    requires WellSized(ubs)
  {
    var ids := ComputedOrder(b, ubs);
    |left| == |ids| && forall r: nat | r < |ids| :: rows(ids[r]) == RowKnown(b, ubs, samplers, compute, left, r)
  }

  ghost function RowKnown<T>(b: Batch, ubs: seq<UBatch>, samplers: set<nat>, compute: nat -> seq<T>,
                             left: seq<seq<T>>, r: nat): seq<T>
    requires WellSized(ubs) && r < |ComputedOrder(b, ubs)| == |left|
  {
    Made(b.output, ubs, samplers, |ubs|, compute, ComputedOrder(b, ubs), left, r)
  }

  /** A row for every token, known or not. */
  ghost function RowFor<T>(b: Batch, ubs: seq<UBatch>, samplers: set<nat>, compute: nat -> seq<T>,
                           left: seq<seq<T>>, t: nat): seq<T>
  {
    if WellSized(ubs) && |left| == |ComputedOrder(b, ubs)| && StandsAt(ComputedOrder(b, ubs), t) then
      var r: nat :| r < |ComputedOrder(b, ubs)| && ComputedOrder(b, ubs)[r] == t;
      RowKnown(b, ubs, samplers, compute, left, r)
    else []
  }

  ghost function RowsFor<T>(b: Batch, ubs: seq<UBatch>, samplers: set<nat>, compute: nat -> seq<T>,
                            left: seq<seq<T>>): (rows: nat -> seq<T>)
    ensures forall t :: rows(t) == RowFor(b, ubs, samplers, compute, left, t)
  {
    (t: nat) => RowFor(b, ubs, samplers, compute, left, t)
  }

  ghost predicate StandsAt(ids: seq<nat>, t: nat) {
    exists r: nat :: r < |ids| && ids[r] == t
  }

  lemma RowForIsKnown<T>(b: Batch, ubs: seq<UBatch>, samplers: set<nat>, compute: nat -> seq<T>, left: seq<seq<T>>,
                         r: nat)
    requires WellSized(ubs) && r < |ComputedOrder(b, ubs)| == |left| && NoDuplicates(ComputedOrder(b, ubs))
    ensures RowFor(b, ubs, samplers, compute, left, ComputedOrder(b, ubs)[r])
         == RowKnown(b, ubs, samplers, compute, left, r)
  {
    assert StandsAt(ComputedOrder(b, ubs), ComputedOrder(b, ubs)[r]);
  }

  lemma RowsAreKnown<T>(b: Batch, ubs: seq<UBatch>, samplers: set<nat>, compute: nat -> seq<T>, left: seq<seq<T>>,
                        current: seq<seq<T>>, rows: nat -> seq<T>)
    requires WellSized(ubs) && |ComputedOrder(b, ubs)| == |left| == |current| && NoDuplicates(ComputedOrder(b, ubs))
    requires RowsMade(b.output, ubs, samplers, |ubs|, compute, ComputedOrder(b, ubs), left, current)
    requires forall t :: rows(t) == RowFor(b, ubs, samplers, compute, left, t)
    ensures RowsHold(current, ComputedOrder(b, ubs), rows) && RowsKnown(b, ubs, samplers, compute, left, rows)
  {
    forall r: nat | r < |left|
      ensures rows(ComputedOrder(b, ubs)[r]) == RowKnown(b, ubs, samplers, compute, left, r) == current[r]
    {
      RowForIsKnown(b, ubs, samplers, compute, left, r);
    }
  }

  lemma DeliveredSizes(b: Batch, ubs: seq<UBatch>, nUbatch: nat, mode: SplitMode)
    requires b.WellFormed() && AllDelivered(b, ubs, nUbatch, mode)
    ensures WellSized(ubs) && forall u | 0 <= u < |ubs| :: CarriesRows(b, ubs[u])
  {
    forall u | 0 <= u < |ubs|
      ensures CarriesRows(b, ubs[u])
    {
      assert Delivered(b, ubs[u], nUbatch, mode);
    }
  }

  /** What a decode that broke off at micro-batch at leaves: no token is mapped, and the rows in use are the
    * front of the buffer, with what the earlier micro-batches stored there. */
  ghost predicate BrokenOff<T(0)>(ctx: Outputs<T>, q: Request<T>, ubs: seq<UBatch>, left: seq<seq<T>>, at: nat)
    reads ctx, ctx.logits
    requires at < |ubs| && WellSized(ubs)
  {
    && Progress(ubs, q.succeeds, at) && |left| == |ComputedOrder(q.b, ubs)|
    && ctx.Unmapped() && ctx.nOutputs == |Flagged(q.b.output, ubs[at].idxs)|
    && RowsMade(q.b.output, ubs, q.samplers, at, q.compute, ComputedOrder(q.b, ubs), left, ctx.Current())
  }

  /** What a decode that went well leaves: the row of every wanted token, mapped in batch order. */
  ghost predicate Finished<T(0)>(ctx: Outputs<T>, q: Request<T>, ubs: seq<UBatch>, left: seq<seq<T>>,
                                 rows: nat -> seq<T>)
    reads ctx, ctx.logits
    requires WellSized(ubs)
  {
    && Progress(ubs, q.succeeds, |ubs|)
    && ctx.Mapped() && ctx.Final() == WantedInBatchOrder(q.b.output) && ctx.order == ComputedOrder(q.b, ubs)
    && (ctx.outputSwaps == [] <==> Ascending(ctx.order))
    && ctx.Holds(rows) && RowsKnown(q.b, ubs, q.samplers, q.compute, left, rows)
  }

  /** All of the batch's tokens, in micro-batches as the split makes them. */
  ghost predicate SplitWell<T>(q: Request<T>, nUbatch: nat, ubs: seq<UBatch>)
    requires q.b.WellFormed()
  {
    Complete(q.b.Sets(), RowsTo(ubs, |ubs|)) && Traced(q.b, ubs, nUbatch, q.mode)
  }

  /** The part of a decode call that computes: micro-batch after micro-batch, then the mapping. */
  method ComputeBatch<T(0)>(ctx: Outputs<T>, q: Request<T>, nUbatch: nat, nOutputs: nat, ubs: seq<UBatch>,
                            outIds: seq<nat>)
    returns (exit: Exit, ghost left: seq<seq<T>>, ghost rows: nat -> seq<T>)
    requires ctx.Sane() && ctx.outputSwaps == [] && q.WellFormed(ctx.nVocab, ctx.nBatch, nUbatch)
    requires SplitWell(q, nUbatch, ubs) && WellSized(ubs) && outIds == ComputedOrder(q.b, ubs)
    requires nOutputs == |set i | 0 <= i < |q.b.output| && q.b.output[i]|
    modifies ctx, ctx.logits
    ensures ctx.Sane() && (ctx.logits == old(ctx.logits) || fresh(ctx.logits))
    ensures exit.Done? || (exit.Aborted? && exit.at < |ubs|)
    ensures exit.Aborted? ==> BrokenOff(ctx, q, ubs, left, exit.at)
    ensures exit.Done? ==> Finished(ctx, q, ubs, left, rows)
  {
    DeliveredSizes(q.b, ubs, nUbatch, q.mode);
    var done;
    rows := (t: nat) => [];
    done, left := ctx.Decode(q.b, nOutputs, ubs, outIds, q.samplers, q.compute, q.succeeds);
    if done < |ubs| {
      return Aborted(done), left, rows;
    }
    exit := Done;
    rows := RowsFor(q.b, ubs, q.samplers, q.compute, left);
    OutIdsExactlyFlagged(q.b.output, q.b.Sets(), RowsTo(ubs, |ubs|), outIds);
    RowsAreKnown(q.b, ubs, q.samplers, q.compute, left, ctx.Current(), rows);
  }

  /** A whole decode call on the host side: check the batch, split it, collect the rows, map them. Nothing is
    * asked of the context but that it is one. After a refusal it is as before. After a batch that finds no
    * room only the recorded swaps are gone, so the old mapping is right exactly if there were none. */
  method DecodeBatch<T(0)>(ctx: Outputs<T>, balloc: Allocr, q: Request<T>, nSeqMax: nat, nUbatch: nat)
    returns (exit: Exit, ubatches: seq<UBatch>, ghost left: seq<seq<T>>, ghost rows: nat -> seq<T>)
    requires ctx.Sane() && q.WellFormed(ctx.nVocab, ctx.nBatch, nUbatch)
    modifies ctx, ctx.logits, balloc
    ensures ctx.Sane() && WellSized(ubatches) && (ctx.logits == old(ctx.logits) || fresh(ctx.logits))
    ensures exit.Refused? <==> !q.Served(nSeqMax)
    ensures exit.NoRoom? <==> q.Served(nSeqMax) && !q.Placed()
    ensures exit.Refused? ==> unchanged(ctx)
    ensures exit.NoRoom? ==> unchanged(ctx`logits, ctx`nOutputs, ctx`outputIds, ctx`order)
    ensures exit.Refused? || exit.NoRoom? ==> ctx.logits[..] == old(ctx.logits[..])
    ensures exit.NoRoom? ==> ctx.outputSwaps == []
    ensures exit.NoRoom? && old(ctx.Mapped()) ==> (ctx.Mapped() <==> old(ctx.outputSwaps) == [])
    ensures exit.Aborted? || exit.Done? ==> SplitWell(q, nUbatch, ubatches)
    ensures exit.Aborted? ==> exit.at < |ubatches| && BrokenOff(ctx, q, ubatches, left, exit.at)
    ensures exit.Done? ==> Finished(ctx, q, ubatches, left, rows)
  {
    ubatches, left, rows := [], [], (t: nat) => [];
    var ok := CheckSamplers(q.b, nSeqMax, q.samplers, q.maxOutputs);
    if !ok {
      return Refused, ubatches, left, rows;
    }
    ok := balloc.Init(q.b, nSeqMax, q.memory, q.kind);
    if !ok {
      return Refused, ubatches, left, rows;
    }
    ctx.ClearSwaps();
    var parts, split := SplitAll(balloc, nUbatch, q.mode);
    if !split || !q.finds {
      return NoRoom, ubatches, left, rows;
    }
    ubatches := parts;
    DeliveredSizes(q.b, ubatches, nUbatch, q.mode);
    exit, left, rows := ComputeBatch(ctx, q, nUbatch, balloc.nOutputs, ubatches, balloc.outIds);
  }

  // ---- whose row is whose --------------------------------------------------------------

  lemma {:induction false} RowOfToken(ubs: seq<UBatch>, n: nat, t: nat)
    requires n <= |ubs| && t in RowsTo(ubs, n)
    ensures exists u: nat :: u < n && t in ubs[u].idxs
  {
    if t !in ubs[n - 1].idxs {
      RowOfToken(ubs, n - 1, t);
    }
  }

  ghost predicate FrontToBack(xs: seq<nat>, n: nat) {
    |xs| <= n && forall k | 0 <= k < |xs| :: xs[k] == k
  }

  /** A simple split computes the batch front to back, so it leaves no swap to replay. */
  lemma {:induction false} SimpleInOrder(b: Batch, ubs: seq<UBatch>, nUbatch: nat, n: nat)
    requires b.WellFormed() && AllFollow(b, ubs, nUbatch, Simple) && n <= |ubs|
    ensures FrontToBack(RowsTo(ubs, n), |b.seqIds|)
  {
    if n > 0 {
      SimpleInOrder(b, ubs, nUbatch, n - 1);
      assert FollowsBefore(b, ubs, n - 1, nUbatch, Simple);
      SimpleStep(b, RowsTo(ubs, n - 1), ubs[n - 1].idxs, nUbatch);
    }
  }

  lemma SimpleStep(b: Batch, before: seq<nat>, idxs: seq<nat>, nUbatch: nat)
    requires b.WellFormed() && FrontToBack(before, |b.seqIds|) && FollowsAt(b, before, idxs, nUbatch, Simple)
    ensures FrontToBack(before + idxs, |b.seqIds|)
  {
    forall i | 0 <= i < |b.seqIds| ensures i in before <==> i < |before| {
      assert i < |before| ==> before[i] == i;
    }
    var used := UsedBy(|b.seqIds|, before);
    assert |before| == |used| || !used[|before|];
    assert idxs[0] == |before|;
  }

  lemma SimpleLeavesNoSwaps<T(0)>(ctx: Outputs<T>, q: Request<T>, nUbatch: nat, ubs: seq<UBatch>, left: seq<seq<T>>,
                                  rows: nat -> seq<T>)
    requires q.b.WellFormed() && q.mode.Simple? && SplitWell(q, nUbatch, ubs) && WellSized(ubs)
    requires Finished(ctx, q, ubs, left, rows)
    ensures ctx.outputSwaps == []
  {
    SimpleInOrder(q.b, ubs, nUbatch, |ubs|);
    var all := RowsTo(ubs, |ubs|);
    FlaggedToAscending(q.b.output, all, |all|);
  }

  /** A wanted token always gets its own logits if one of its sequences is sampled on the host; so all do if
    * there are no backend samplers. */
  lemma UnsampledIsCopied<T>(q: Request<T>, nUbatch: nat, ubs: seq<UBatch>, t: nat)
    requires q.b.WellFormed() && SplitWell(q, nUbatch, ubs) && WellSized(ubs)
    requires t < |q.b.seqIds| && q.b.output[t] && Unsampled(q.b.seqIds[t], q.samplers)
    ensures Copied(q.b, ubs, q.samplers, t)
  {
    DeliveredSizes(q.b, ubs, nUbatch, q.mode);
    RowOfToken(ubs, |ubs|, t);
    var u: nat :| u < |ubs| && t in ubs[u].idxs;
    var i: nat :| i < |ubs[u].idxs| && ubs[u].idxs[i] == t;
    assert ubs[u].output[i] && ubs[u].seqIds[i] == q.b.seqIds[t];
    FlaggedHas(q.b.output, ubs[u].idxs, |ubs[u].idxs|, i);
    assert RawNeeded(ubs[u], q.samplers);
  }

  lemma {:induction false} FlaggedHas(output: seq<bool>, xs: seq<nat>, n: nat, i: nat)
    requires i < n <= |xs| && xs[i] < |output| && output[xs[i]]
    ensures xs[i] in FlaggedTo(output, xs, n)
  {
    if i < n - 1 {
      FlaggedHas(output, xs, n - 1, i);
    }
  }

  /** The row of a wanted token is its own exactly if its micro-batch was copied, or the buffer happened to
    * hold the same from before. */
  lemma OwnRows<T>(q: Request<T>, ubs: seq<UBatch>, left: seq<seq<T>>, rows: nat -> seq<T>, r: nat)
    requires WellSized(ubs) && RowsKnown(q.b, ubs, q.samplers, q.compute, left, rows)
    requires r < |ComputedOrder(q.b, ubs)|
    ensures var t := ComputedOrder(q.b, ubs)[r];
            rows(t) == q.compute(t) <==> Copied(q.b, ubs, q.samplers, t) || left[r] == q.compute(t)
  {
    assert rows(ComputedOrder(q.b, ubs)[r]) == RowKnown(q.b, ubs, q.samplers, q.compute, left, r);
  }

  /** Without a sequence sampled on the host nothing is copied. */
  lemma AllSampledNoneCopied<T>(q: Request<T>, nUbatch: nat, ubs: seq<UBatch>, t: nat)
    requires q.b.WellFormed() && SplitWell(q, nUbatch, ubs) && WellSized(ubs)
    requires forall i | 0 <= i < |q.b.seqIds| && q.b.output[i] :: !Unsampled(q.b.seqIds[i], q.samplers)
    ensures !Copied(q.b, ubs, q.samplers, t)
  {
    DeliveredSizes(q.b, ubs, nUbatch, q.mode);
    forall u: nat | u < |ubs| ensures !RawNeeded(ubs[u], q.samplers) {
      assert CarriesRows(q.b, ubs[u]);
    }
  }

  // ---- runs of calls -------------------------------------------------------------------

  datatype Call<!T> = DecodeCall(q: Request<T>) | ReadCall(i: int)

  datatype Answer<T> = Ended(exit: Exit) | Row(row: Option<seq<T>>)

  /** What is known of a context's outputs: the tokens they are for, their rows, and whether swaps are still
    * to be replayed. */
  datatype View<!T> = Readable(final: seq<nat>, of: nat -> seq<T>, pending: bool) | Lost

  ghost predicate Shows<T(0)>(ctx: Outputs<T>, v: View<T>)
    reads ctx, ctx.logits
  {
    v.Readable? ==>
      && ctx.Mapped() && ctx.Holds(v.of) && ctx.Final() == v.final
      && (v.pending <==> ctx.outputSwaps != [])
  }

  /** What reading index i must give. */
  ghost predicate RightRow<T>(final: seq<nat>, of: nat -> seq<T>, i: int, row: Option<seq<T>>) {
    if i < 0 then row == if 0 <= |final| + i then Some(of(final[|final| + i])) else None
    else row == if i in final then Some(of(i)) else None
  }

  /** The rows of are those a decode of q computes. */
  ghost predicate RowsOf<T(!new)>(q: Request<T>, nUbatch: nat, of: nat -> seq<T>)
    requires q.b.WellFormed()
  {
    exists ubs, left ::
      SplitWell(q, nUbatch, ubs) && WellSized(ubs) && RowsKnown(q.b, ubs, q.samplers, q.compute, left, of)
  }

  ghost predicate ReadRight<T>(i: int, before: View<T>, answer: Answer<T>, after: View<T>) {
    && answer.Row?
    && (before.Readable? ==> RightRow(before.final, before.of, i, answer.row) && after == before.(pending := false))
    && (before.Lost? ==> after.Lost?)
  }

  ghost predicate DecodeRight<T(!new)>(q: Request<T>, nSeqMax: nat, nUbatch: nat, before: View<T>, exit: Exit,
                                       after: View<T>)
    requires q.b.WellFormed()
  {
    && (exit.Refused? <==> !q.Served(nSeqMax))
    && (exit.NoRoom? <==> q.Served(nSeqMax) && !q.Placed())
    && match exit
       case Refused => after == before
       case NoRoom => after == if before.Readable? && !before.pending then before else Lost
       case Aborted(_) => after.Lost?
       case Done => after.Readable? && after.final == WantedInBatchOrder(q.b.output) && RowsOf(q, nUbatch, after.of)
  }

  /** One call takes what is known from before to after. */
  ghost predicate StepRight<T(!new)>(call: Call<T>, nSeqMax: nat, nUbatch: nat, before: View<T>, answer: Answer<T>,
                                     after: View<T>)
  {
    match call
    case ReadCall(i) => ReadRight(i, before, answer, after)
    case DecodeCall(q) =>
      q.b.WellFormed() && answer.Ended? && DecodeRight(q, nSeqMax, nUbatch, before, answer.exit, after)
  }

  ghost predicate CallAllowed<T>(call: Call<T>, nVocab: nat, nBatch: nat, nUbatch: nat) {
    call.DecodeCall? ==> call.q.WellFormed(nVocab, nBatch, nUbatch)
  }

  ghost predicate RunRight<T(!new)>(calls: seq<Call<T>>, nSeqMax: nat, nUbatch: nat, answers: seq<Answer<T>>,
                                    views: seq<View<T>>)
  {
    && |answers| <= |calls| && |views| == |answers| + 1
    && forall k: nat | k < |answers| :: StepAt(calls, nSeqMax, nUbatch, answers, views, k)
  }

  ghost predicate StepAt<T(!new)>(calls: seq<Call<T>>, nSeqMax: nat, nUbatch: nat, answers: seq<Answer<T>>,
                                  views: seq<View<T>>, k: nat)
    requires k < |answers| <= |calls| && |views| == |answers| + 1
  {
    StepRight(calls[k], nSeqMax, nUbatch, views[k], answers[k], views[k + 1])
  }

  lemma RunGrows<T(!new)>(calls: seq<Call<T>>, nSeqMax: nat, nUbatch: nat, answers: seq<Answer<T>>,
                          views: seq<View<T>>, answer: Answer<T>, after: View<T>)
    requires RunRight(calls, nSeqMax, nUbatch, answers, views) && |answers| < |calls|
    requires StepRight(calls[|answers|], nSeqMax, nUbatch, views[|answers|], answer, after)
    ensures RunRight(calls, nSeqMax, nUbatch, answers + [answer], views + [after])
  {
    forall k: nat | k < |answers + [answer]|
      ensures StepAt(calls, nSeqMax, nUbatch, answers + [answer], views + [after], k)
    {
      if k < |answers| {
        StepStays(calls, nSeqMax, nUbatch, answers, views, answer, after, k);
      }
    }
  }

  lemma StepStays<T(!new)>(calls: seq<Call<T>>, nSeqMax: nat, nUbatch: nat, answers: seq<Answer<T>>,
                           views: seq<View<T>>, answer: Answer<T>, after: View<T>, k: nat)
    requires k < |answers| < |calls| && |views| == |answers| + 1
    requires StepAt(calls, nSeqMax, nUbatch, answers, views, k)
    ensures StepAt(calls, nSeqMax, nUbatch, answers + [answer], views + [after], k)
  {
    assert (answers + [answer])[k] == answers[k];
    assert (views + [after])[k] == views[k] && (views + [after])[k + 1] == views[k + 1];
  }

  method Read<T(0)>(ctx: Outputs<T>, i: int, ghost v: View<T>) returns (answer: Answer<T>, ghost after: View<T>)
    requires ctx.Sane() && Shows(ctx, v)
    modifies ctx`outputSwaps, ctx`order, ctx.logits
    ensures ctx.Sane() && Shows(ctx, after) && ReadRight(i, v, answer, after)
  {
    var row := ctx.GetLogitsIth(i, if v.Readable? then v.of else (t: nat) => []);
    answer := Row(row);
    after := if v.Readable? then v.(pending := false) else Lost;
  }

  method Decode<T(0,!new)>(ctx: Outputs<T>, balloc: Allocr, q: Request<T>, nSeqMax: nat, nUbatch: nat,
                           ghost v: View<T>)
    returns (exit: Exit, ghost after: View<T>)
    requires ctx.Sane() && Shows(ctx, v) && q.WellFormed(ctx.nVocab, ctx.nBatch, nUbatch)
    modifies ctx, ctx.logits, balloc
    ensures ctx.Sane() && Shows(ctx, after) && (ctx.logits == old(ctx.logits) || fresh(ctx.logits))
    ensures DecodeRight(q, nSeqMax, nUbatch, v, exit, after)
  {
    var ubs;
    ghost var left, rows;
    exit, ubs, left, rows := DecodeBatch(ctx, balloc, q, nSeqMax, nUbatch);
    match exit
    case Refused => after := v;
    case NoRoom => after := if v.Readable? && !v.pending then v else Lost;
    case Aborted(_) => after := Lost;
    case Done =>
      after := Readable(WantedInBatchOrder(q.b.output), rows, ctx.outputSwaps != []);
      assert RowsOf(q, nUbatch, rows);
  }

  /** Any sequence of decodes and reads, failing or not, in any order. */
  method RunCalls<T(0,!new)>(ctx: Outputs<T>, balloc: Allocr, calls: seq<Call<T>>, nSeqMax: nat, nUbatch: nat)
    returns (answers: seq<Answer<T>>, ghost views: seq<View<T>>)
    requires ctx.Sane() && forall k | 0 <= k < |calls| :: CallAllowed(calls[k], ctx.nVocab, ctx.nBatch, nUbatch)
    modifies ctx, ctx.logits, balloc
    ensures ctx.Sane() && |answers| == |calls| && RunRight(calls, nSeqMax, nUbatch, answers, views)
  {
    answers, views := [], [Lost];
    for k := 0 to |calls|
      invariant ctx.Sane() && (ctx.logits == old(ctx.logits) || fresh(ctx.logits))
      invariant |answers| == k && RunRight(calls, nSeqMax, nUbatch, answers, views) && Shows(ctx, views[k])
    {
      assert CallAllowed(calls[k], ctx.nVocab, ctx.nBatch, nUbatch);
      ghost var after;
      var answer;
      match calls[k] {
        case ReadCall(i) =>
          answer, after := Read(ctx, i, views[k]);
        case DecodeCall(q) =>
          var exit;
          exit, after := Decode(ctx, balloc, q, nSeqMax, nUbatch, views[k]);
          answer := Ended(exit);
      }
      RunGrows(calls, nSeqMax, nUbatch, answers, views, answer, after);
      answers, views := answers + [answer], views + [after];
    }
  }

  /** Call j leaves the outputs of call k as they are: a read, a refused decode, or one that finds no room when
    * the outputs were read since. */
  ghost predicate Harmless<T>(calls: seq<Call<T>>, answers: seq<Answer<T>>, k: nat, j: nat)
    requires k < j < |answers| <= |calls|
  {
    || calls[j].ReadCall?
    || answers[j] == Ended(Refused)
    || (answers[j] == Ended(NoRoom) && ReadSince(calls, k, j))
  }

  ghost predicate ReadSince<T>(calls: seq<Call<T>>, k: nat, j: nat)
    requires j <= |calls|
  {
    exists r: nat :: k < r < j && calls[r].ReadCall?
  }

  /** The outputs known at v are those known at w; none are pending once they were read. */
  ghost predicate StillKnown<T>(v: View<T>, w: View<T>, read: bool) {
    v.Readable? && w.Readable? && w.final == v.final && w.of == v.of && (read ==> !w.pending)
  }

  lemma HarmlessStep<T(!new)>(call: Call<T>, nSeqMax: nat, nUbatch: nat, v: View<T>, before: View<T>,
                              answer: Answer<T>, after: View<T>, read: bool)
    requires StepRight(call, nSeqMax, nUbatch, before, answer, after) && StillKnown(v, before, read)
    requires call.ReadCall? || answer == Ended(Refused) || (answer == Ended(NoRoom) && read)
    ensures StillKnown(v, after, read || call.ReadCall?)
  {
  }

  /** In any run, a read gives the rows of the last decode that went well, however many calls failed before
    * it, if only harmless ones came since. */
  lemma ReadsSeeLastDecode<T(!new)>(calls: seq<Call<T>>, nSeqMax: nat, nUbatch: nat, answers: seq<Answer<T>>,
                                    views: seq<View<T>>, k: nat, m: nat)
    requires RunRight(calls, nSeqMax, nUbatch, answers, views) && k < m < |answers|
    requires calls[k].DecodeCall? && answers[k] == Ended(Done) && calls[m].ReadCall?
    requires forall j: nat | k < j < m :: Harmless(calls, answers, k, j)
    ensures calls[k].q.b.WellFormed() && answers[m].Row?
    ensures exists of: nat -> seq<T> ::
              RowsOf(calls[k].q, nUbatch, of)
              && RightRow(WantedInBatchOrder(calls[k].q.b.output), of, calls[m].i, answers[m].row)
  {
    assert StepAt(calls, nSeqMax, nUbatch, answers, views, k);
    KnownUntil(calls, nSeqMax, nUbatch, answers, views, k, m);
    assert StepAt(calls, nSeqMax, nUbatch, answers, views, m);
  }

  lemma {:induction false} KnownUntil<T(!new)>(calls: seq<Call<T>>, nSeqMax: nat, nUbatch: nat,
                                               answers: seq<Answer<T>>, views: seq<View<T>>, k: nat, m: nat)
    requires RunRight(calls, nSeqMax, nUbatch, answers, views) && k < m <= |answers|
    requires views[k + 1].Readable? && forall j: nat | k < j < m :: Harmless(calls, answers, k, j)
    ensures StillKnown(views[k + 1], views[m], ReadSince(calls, k, m))
    decreases m
  {
    if k + 1 < m {
      KnownUntil(calls, nSeqMax, nUbatch, answers, views, k, m - 1);
      assert Harmless(calls, answers, k, m - 1);
      assert StepAt(calls, nSeqMax, nUbatch, answers, views, m - 1);
      HarmlessStep(calls[m - 1], nSeqMax, nUbatch, views[k + 1], views[m - 1], answers[m - 1], views[m],
                   ReadSince(calls, k, m - 1));
    }
  }

  /** In particular such a read gives token i its own logits, if one of its sequences is sampled on the host. */
  lemma ReadsGetOwnRow<T(!new)>(calls: seq<Call<T>>, nSeqMax: nat, nUbatch: nat, answers: seq<Answer<T>>,
                                views: seq<View<T>>, k: nat, m: nat)
    requires RunRight(calls, nSeqMax, nUbatch, answers, views) && k < m < |answers|
    requires calls[k].DecodeCall? && answers[k] == Ended(Done) && calls[m].ReadCall?
    requires forall j: nat | k < j < m :: Harmless(calls, answers, k, j)
    requires calls[k].q.b.WellFormed() && 0 <= calls[m].i < |calls[k].q.b.seqIds|
    requires calls[k].q.b.output[calls[m].i] && Unsampled(calls[k].q.b.seqIds[calls[m].i], calls[k].q.samplers)
    ensures answers[m] == Row(Some(calls[k].q.compute(calls[m].i)))
  {
    var q, i := calls[k].q, calls[m].i;
    ReadsSeeLastDecode(calls, nSeqMax, nUbatch, answers, views, k, m);
    var of: nat -> seq<T> :| RowsOf(q, nUbatch, of) && RightRow(WantedInBatchOrder(q.b.output), of, i, answers[m].row);
    WantedInBatchOrderIs(q.b.output);
    OwnRowOf(q, nUbatch, of, i);
  }

  lemma OwnRowOf<T(!new)>(q: Request<T>, nUbatch: nat, of: nat -> seq<T>, t: nat)
    requires q.b.WellFormed() && RowsOf(q, nUbatch, of)
    requires t < |q.b.seqIds| && q.b.output[t] && Unsampled(q.b.seqIds[t], q.samplers)
    ensures of(t) == q.compute(t)
  {
    var ubs, left :| SplitWell(q, nUbatch, ubs) && WellSized(ubs)
                     && RowsKnown(q.b, ubs, q.samplers, q.compute, left, of);
    var ids := ComputedOrder(q.b, ubs);
    UnsampledIsCopied(q, nUbatch, ubs, t);
    OutIdsExactlyFlagged(q.b.output, q.b.Sets(), RowsTo(ubs, |ubs|), ids);
    assert t in ids;
    var r: nat :| r < |ids| && ids[r] == t;
    OwnRows(q, ubs, left, of, r);
  }

  // ---- swaps forgotten -----------------------------------------------------------------

  /** Two sequences whose tokens alternate, all wanted. */
  function Alternating(): Batch {
    Batch([[0], [1], [0], [1]], [0, 0, 1, 1], [true, true, true, true])
  }

  /** Split by sequence, they are computed sequence after sequence. */
  lemma AlternatingOrder(ubs: seq<UBatch>)
    requires AllFollow(Alternating(), ubs, 4, BySequence)
    requires Complete(Alternating().Sets(), RowsTo(ubs, |ubs|))
    ensures RowsTo(ubs, |ubs|) == [0, 2, 1, 3]
  {
    AlternatingAll(ubs);
    assert 1 in RowsTo(ubs, |ubs|);
    AlternatingRows(ubs);
  }

  lemma AlternatingAll(ubs: seq<UBatch>)
    requires AllFollow(Alternating(), ubs, 4, BySequence)
    ensures forall u: nat | u < |ubs| :: AlternatingNext(RowsTo(ubs, u), ubs[u].idxs)
  {
    forall u: nat | u < |ubs|
      ensures AlternatingNext(RowsTo(ubs, u), ubs[u].idxs)
    {
      assert FollowsBefore(Alternating(), ubs, u, 4, BySequence);
      AlternatingStep(RowsTo(ubs, u), ubs[u].idxs);
    }
  }

  ghost predicate AlternatingNext(before: seq<nat>, idxs: seq<nat>) {
    && (before == [] ==> idxs == [0, 2])
    && (before == [0, 2] ==> idxs == [1, 3])
    && before != [0, 2, 1, 3]
  }

  lemma AlternatingRows(ubs: seq<UBatch>)
    requires forall u: nat | u < |ubs| :: AlternatingNext(RowsTo(ubs, u), ubs[u].idxs)
    requires 1 in RowsTo(ubs, |ubs|)
    ensures RowsTo(ubs, |ubs|) == [0, 2, 1, 3]
  {
    FirstRows(ubs);
    SecondRows(ubs);
  }

  lemma FirstRows(ubs: seq<UBatch>)
    requires RowsTo(ubs, |ubs|) != [] && AlternatingNext(RowsTo(ubs, 0), ubs[0].idxs)
    ensures RowsTo(ubs, 1) == [0, 2]
  {
    assert RowsTo(ubs, 1) == RowsTo(ubs, 0) + ubs[0].idxs;
  }

  lemma SecondRows(ubs: seq<UBatch>)
    requires |ubs| > 1 && RowsTo(ubs, 1) == [0, 2] && AlternatingNext(RowsTo(ubs, 1), ubs[1].idxs)
    ensures RowsTo(ubs, 2) == [0, 2, 1, 3]
  {
    assert RowsTo(ubs, 2) == RowsTo(ubs, 1) + ubs[1].idxs;
  }

  lemma AlternatingStep(before: seq<nat>, idxs: seq<nat>)
    requires FollowsAt(Alternating(), before, idxs, 4, BySequence)
    ensures AlternatingNext(before, idxs)
  {
    var sets, used := Alternating().Sets(), UsedBy(4, before);
    assert 0 in sets[0] && 0 !in sets[1] && 1 in sets[1] && 1 !in sets[0] && sets[2] == sets[0] && sets[3] == sets[1];
    assert !used[idxs[0]];
    if before == [] {
      ChainOf(sets, used, 0, 2, idxs);
    } else if before == [0, 2] {
      ChainOf(sets, used, 1, 3, idxs);
    }
  }

  lemma ChainOf(sets: seq<SeqSet>, used: seq<bool>, i: nat, j: nat, idxs: seq<nat>)
    requires |sets| == |used| == 4 && SeqChain(sets, used, 4, idxs)
    requires i < j < 4 && !used[i] && !used[j] && sets[j] <= sets[i]
    requires forall k | 0 <= k < i :: used[k]
    requires forall k | i < k < 4 && k != j :: used[k] || (!(sets[k] <= sets[i]) && !(sets[k] <= sets[j]))
    ensures idxs == [i, j]
  {
    assert idxs[0] == i;
    if |idxs| > 1 {
      ChainLink(sets, used, idxs, 0);
    }
    if |idxs| > 2 {
      ChainLink(sets, used, idxs, 1);
    }
  }

  lemma ChainLink(sets: seq<SeqSet>, used: seq<bool>, idxs: seq<nat>, k: nat)
    requires |sets| == |used| && Chain(sets, used, idxs) && k + 1 < |idxs|
    ensures Link(sets, used, idxs[k], idxs[k + 1]) && !used[idxs[k + 1]]
  {
  }

  function NothingStored(): Memory {
    Memory(_ => -1, _ => -1)
  }

  /** Both sequences stored up to position 1. */
  function TwoStored(): Memory {
    Memory(_ => 0, _ => 1)
  }

  lemma AlternatingAccepted()
    ensures Alternating().WellFormed() && Alternating().Accepted(2, NothingStored(), OnePosition)
  {
    var b := Alternating();
    forall x: nat | x < 2 ensures b.SequenceFits(x, NothingStored(), OnePosition) {
      forall p: int ensures p in b.PositionsOf(x) <==> p == 0 || p == 1 {
        assert x in b.seqIds[x] && b.pos[x] == 0 && x in b.seqIds[x + 2] && b.pos[x + 2] == 1;
      }
    }
  }

  lemma NextTokenAccepted()
    ensures var b := Batch([[0]], [2], [true]); b.WellFormed() && b.Accepted(2, TwoStored(), OnePosition)
  {
    var b := Batch([[0]], [2], [true]);
    forall x: nat | x < 2 ensures b.SequenceFits(x, TwoStored(), OnePosition) {
      forall p: int ensures p in b.PositionsOf(x) <==> x == 0 && p == 2 {
        assert 0 in b.seqIds[0] && b.pos[0] == 2;
      }
    }
  }

  lemma AlternatingOutputs()
    ensures Flagged([true, true, true, true], [0, 2, 1, 3]) == [0, 2, 1, 3]
    ensures WantedInBatchOrder([true, true, true, true]) == [0, 1, 2, 3]
  {
    AllFlaggedTo([true, true, true, true], [0, 2, 1, 3], 4);
    AllFlaggedTo([true, true, true, true], [0, 1, 2, 3], 4);
    assert Range(0, 4) == [0, 1, 2, 3];
  }

  method DecodeAlternating<T(0)>(ctx: Outputs<T>, balloc: Allocr, compute: nat -> seq<T>)
    returns (exit: Exit, ghost rows: nat -> seq<T>)
    requires ctx.Sane() && 4 <= ctx.nBatch && forall t :: |compute(t)| == ctx.nVocab
    modifies ctx, ctx.logits, balloc
    ensures exit == Done && ctx.Sane() && (ctx.logits == old(ctx.logits) || fresh(ctx.logits))
    ensures ctx.order == [0, 2, 1, 3] && ctx.outputIds[1] == 1
    ensures ctx.Holds(rows) && rows(2) == compute(2)
  {
    AlternatingAccepted();
    AlternatingOutputs();
    var q := Request(Alternating(), NothingStored(), OnePosition, BySequence, {}, 0, true, compute, _ => true);
    var ubs;
    ghost var left;
    exit, ubs, left, rows := DecodeBatch(ctx, balloc, q, 2, 4);
    AlternatingOrder(ubs);
    assert Unsampled([0], {}) by { assert [0][0] !in {}; }
    UnsampledIsCopied(q, 4, ubs, 2);
    OwnRows(q, ubs, left, rows, 1);
    assert ctx.outputIds[ctx.Final()[1]] == 1;
  }

  /** Outputs that were not read before a decode found no room are read in the wrong order: asked for token 1,
    * the context hands out the logits of token 2. */
  method ForgottenSwapsMisread<T(0)>(ctx: Outputs<T>, balloc: Allocr, compute: nat -> seq<T>)
    returns (first: Exit, second: Exit, row: Option<seq<T>>)
    requires ctx.Sane() && 4 <= ctx.nBatch && forall t :: |compute(t)| == ctx.nVocab
    modifies ctx, ctx.logits, balloc
    ensures first == Done && second == NoRoom && row == Some(compute(2))
  {
    ghost var rows;
    first, rows := DecodeAlternating(ctx, balloc, compute);
    second := DecodeWithoutRoom(ctx, balloc, compute);
    assert ctx.Holds(rows);
    row := ctx.GetLogitsIth(1, rows);
    assert RowHolds(ctx.Current(), ctx.order, rows, 1);
  }

  method DecodeWithoutRoom<T(0)>(ctx: Outputs<T>, balloc: Allocr, compute: nat -> seq<T>) returns (exit: Exit)
    requires ctx.Sane() && 4 <= ctx.nBatch && forall t :: |compute(t)| == ctx.nVocab
    modifies ctx, ctx.logits, balloc
    ensures exit == NoRoom && ctx.Sane() && ctx.outputSwaps == [] && ctx.logits[..] == old(ctx.logits[..])
    ensures unchanged(ctx`logits, ctx`nOutputs, ctx`outputIds, ctx`order)
  {
    NextTokenAccepted();
    var q := Request(Batch([[0]], [2], [true]), TwoStored(), OnePosition, BySequence, {}, 0, false, compute, _ => true);
    var ubs;
    ghost var left, rows;
    exit, ubs, left, rows := DecodeBatch(ctx, balloc, q, 2, 4);
  }
}
