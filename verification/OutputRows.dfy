/** The output side of a decode call (llama_context): which row of the logits buffer holds which
  * token, the selection sort that records swaps, and their lazy replay on first access.
  */
module OutputRows {
  import opened Batches
  import opened BatchTokens
  import opened Sequences
  import opened SplitPlan
  import opened BatchAllocr
  import opened SplitDriver

  datatype Swap = Swap(i0: nat, i1: nat)

  function Exchange<T>(xs: seq<T>, i: nat, j: nat): (r: seq<T>)
    requires i < |xs| && j < |xs|
    ensures |r| == |xs|
  {
    xs[i := xs[j]][j := xs[i]]
  }

  ghost predicate SwapsInRange(swaps: seq<Swap>, n: nat) {
    forall k | 0 <= k < |swaps| :: swaps[k].i0 < n && swaps[k].i1 < n
  }

  /** xs after the first n swaps. */
  function Replay<T>(xs: seq<T>, swaps: seq<Swap>, n: nat): (r: seq<T>)
    requires n <= |swaps| && SwapsInRange(swaps, |xs|)
    ensures |r| == |xs|
  {
    if n == 0 then xs else Exchange(Replay(xs, swaps, n - 1), swaps[n - 1].i0, swaps[n - 1].i1)
  }

  lemma {:induction false} ReplayPrefix<T>(xs: seq<T>, swaps: seq<Swap>, more: seq<Swap>, n: nat)
    requires n <= |swaps| && SwapsInRange(swaps, |xs|) && SwapsInRange(swaps + more, |xs|)
    ensures Replay(xs, swaps + more, n) == Replay(xs, swaps, n)
  {
    if n > 0 {
      ReplayPrefix(xs, swaps, more, n - 1);
    }
  }

  /** Replaying swaps moves rows the way it moves the ids that label them. */
  lemma {:induction false} ReplayCarries<S, T>(ids: seq<S>, rows: seq<T>, of: S -> T, swaps: seq<Swap>, n: nat)
    requires |ids| == |rows| && n <= |swaps| && SwapsInRange(swaps, |ids|)
    requires forall r | 0 <= r < |ids| :: rows[r] == of(ids[r])
    ensures SwapsInRange(swaps, |rows|)
    ensures forall r | 0 <= r < |ids| :: Replay(rows, swaps, n)[r] == of(Replay(ids, swaps, n)[r])
  {
    if n > 0 {
      ReplayCarries(ids, rows, of, swaps, n - 1);
    }
  }

  /** As the selection sort records them: each swap brings a later row forward, further on each time. */
  ghost predicate Rising(swaps: seq<Swap>) {
    && (forall k | 0 <= k < |swaps| :: swaps[k].i0 < swaps[k].i1)
    && forall k, l | 0 <= k < l < |swaps| :: swaps[k].i0 < swaps[l].i0
  }

  lemma {:induction false} FirstSwapStays<T>(xs: seq<T>, swaps: seq<Swap>, n: nat)
    requires 0 < n <= |swaps| && SwapsInRange(swaps, |xs|) && Rising(swaps)
    ensures Replay(xs, swaps, n)[swaps[0].i0] == xs[swaps[0].i1]
  {
    if n == 1 {
      assert Replay(xs, swaps, 0) == xs;
    } else {
      FirstSwapStays(xs, swaps, n - 1);
    }
  }

  /** Recorded swaps always move something: replaying them leaves a list alone only if there are none. */
  lemma SwapsMove(xs: seq<nat>, swaps: seq<Swap>)
    requires SwapsInRange(swaps, |xs|) && Rising(swaps) && NoDuplicates(xs)
    ensures Replay(xs, swaps, |swaps|) == xs <==> swaps == []
  {
    if swaps != [] {
      FirstSwapStays(xs, swaps, |swaps|);
    }
  }

  // ---- the selection sort ------------------------------------------------------------

  ghost predicate Ascending(xs: seq<nat>) {
    forall p, q | 0 <= p < q < |xs| :: xs[p] < xs[q]
  }

  ghost predicate SameElements(xs: seq<nat>, ys: seq<nat>) {
    |xs| == |ys| && forall x :: x in xs <==> x in ys
  }

  /** Positions below i hold their final values, no later value is smaller. */
  ghost predicate SortedUpTo(xs: seq<nat>, i: nat) {
    forall p, q | 0 <= p < q < |xs| && p < i :: xs[p] < xs[q]
  }

  lemma ExchangeKeepsElements(xs: seq<nat>, i: nat, j: nat)
    requires i < |xs| && j < |xs| && NoDuplicates(xs)
    ensures SameElements(xs, Exchange(xs, i, j)) && NoDuplicates(Exchange(xs, i, j))
  {
    var ys := Exchange(xs, i, j);
    assert ys[i] == xs[j] && ys[j] == xs[i];
    forall x
      ensures x in xs <==> x in ys
    {
      if x in xs {
        var k :| 0 <= k < |xs| && xs[k] == x;
        assert ys[if k == i then j else if k == j then i else k] == x;
      }
      if x in ys {
        var k :| 0 <= k < |ys| && ys[k] == x;
        assert xs[if k == i then j else if k == j then i else k] == x;
      }
    }
  }

  lemma SelectSmallest(xs: seq<nat>, i: nat, j: nat)
    requires i <= j < |xs| && NoDuplicates(xs) && SortedUpTo(xs, i)
    requires forall k | i <= k < |xs| :: xs[j] <= xs[k]
    ensures SortedUpTo(Exchange(xs, i, j), i + 1)
  {
    var ys := Exchange(xs, i, j);
    forall p, q | 0 <= p < q < |ys| && p < i + 1
      ensures ys[p] < ys[q]
    {
      var q' := if q == i then j else if q == j then i else q;
      assert ys[q] == xs[q'];
      if p < i {
        assert ys[p] == xs[p] && p < q';
      } else {
        assert ys[p] == xs[j] && q' != j && i <= q';
        assert xs[q'] != xs[j];
      }
    }
  }

  /** The sort has settled the first i positions. */
  ghost predicate SortedSoFar(outIds: seq<nat>, sorted: seq<nat>, swaps: seq<Swap>, i: nat) {
    && SameElements(outIds, sorted) && NoDuplicates(sorted) && SortedUpTo(sorted, i)
    && SwapsInRange(swaps, |outIds|) && sorted == Replay(outIds, swaps, |swaps|)
    && Rising(swaps) && forall k | 0 <= k < |swaps| :: swaps[k].i0 < i
  }

  lemma SortStep(outIds: seq<nat>, sorted: seq<nat>, swaps: seq<Swap>, i: nat, j: nat)
    requires SortedSoFar(outIds, sorted, swaps, i) && i <= j < |sorted|
    requires forall k | i <= k < |sorted| :: sorted[j] <= sorted[k]
    ensures if i == j then SortedSoFar(outIds, sorted, swaps, i + 1)
            else SortedSoFar(outIds, Exchange(sorted, i, j), swaps + [Swap(i, j)], i + 1)
  {
    SelectSmallest(sorted, i, j);
    if i == j {
      assert Exchange(sorted, i, i) == sorted;
    } else {
      ExchangeKeepsElements(sorted, i, j);
      ReplayPrefix(outIds, swaps, [Swap(i, j)], |swaps|);
    }
  }

  /** The selection sort of `decode`, recording each exchange that moves something. */
  method SortOutIds(outIds: seq<nat>) returns (sorted: seq<nat>, swaps: seq<Swap>)
    requires NoDuplicates(outIds) && outIds != []
    ensures Ascending(sorted) && SameElements(outIds, sorted)
    ensures SwapsInRange(swaps, |outIds|) && sorted == Replay(outIds, swaps, |swaps|) && Rising(swaps)
  {
    sorted, swaps := outIds, [];
    for i := 0 to |outIds| - 1
      invariant SortedSoFar(outIds, sorted, swaps, i)
    {
      var jMin := i;
      for j := i + 1 to |sorted|
        invariant i <= jMin < j && forall k | i <= k < j :: sorted[jMin] <= sorted[k]
      {
        if sorted[j] < sorted[jMin] {
          jMin := j;
        }
      }
      SortStep(outIds, sorted, swaps, i, jMin);
      if jMin != i {
        sorted := Exchange(sorted, i, jMin);
        swaps := swaps + [Swap(i, jMin)];
      }
    }
  }

  // ---- rows of a flat buffer ---------------------------------------------------------

  /** Where each of n rows of the given width starts. */
  function RowStarts(width: nat, n: nat): (starts: seq<nat>)
    ensures |starts| == n
  {
    if n == 0 then [] else RowStarts(width, n - 1) + [width * (n - 1)]
  }

  /** Rows lie one behind the other within size. */
  ghost predicate Layout(starts: seq<nat>, width: nat, size: nat) {
    && (forall r | 0 <= r < |starts| :: starts[r] + width <= size)
    && forall r, s | 0 <= r < s < |starts| :: starts[r] + width <= starts[s]
  }

  lemma {:induction false} RowStartsLayout(width: nat, n: nat)
    ensures Layout(RowStarts(width, n), width, width * n)
    ensures forall r | 0 <= r < n :: RowStarts(width, n)[r] == width * r
  {
    if n > 0 {
      RowStartsLayout(width, n - 1);
      assert width * n == width * (n - 1) + width;
    }
  }

  lemma LayoutFits(starts: seq<nat>, width: nat, size: nat, more: nat)
    requires Layout(starts, width, size) && size <= more
    ensures Layout(starts, width, more)
  {
  }

  function RowsFrom<T>(data: seq<T>, width: nat, starts: seq<nat>): (rows: seq<seq<T>>)
    requires Layout(starts, width, |data|)
    ensures |rows| == |starts|
    ensures forall r | 0 <= r < |starts| :: rows[r] == data[starts[r]..starts[r] + width]
  {
    seq(|starts|, r requires 0 <= r < |starts| => data[starts[r]..starts[r] + width])
  }

  /** The first n rows of a buffer. */
  ghost function Rows<T>(data: seq<T>, width: nat, n: nat): (rows: seq<seq<T>>)
    requires width * n <= |data|
    ensures |rows| == n
  {
    RowStartsLayout(width, n);
    LayoutFits(RowStarts(width, n), width, width * n, |data|);
    RowsFrom(data, width, RowStarts(width, n))
  }

  /** Element by element, the rows at i0 and i1 change places. */
  method SwapRows<T>(data: array<T>, width: nat, i0: nat, i1: nat, ghost n: nat)
    requires i0 < n && i1 < n && width * n <= data.Length
    modifies data
    ensures Rows(data[..], width, n) == Exchange(old(Rows(data[..], width, n)), i0, i1)
  {
    RowStartsLayout(width, n);
    LayoutFits(RowStarts(width, n), width, width * n, data.Length);
    SwapBlocks(data, width, RowStarts(width, n), i0, i1, i0 * width, i1 * width);
  }

  method SwapBlocks<T>(data: array<T>, width: nat, ghost starts: seq<nat>, ghost i0: nat, ghost i1: nat, b0: nat,
                       b1: nat)
    requires Layout(starts, width, data.Length) && i0 < |starts| && i1 < |starts|
    requires b0 == starts[i0] && b1 == starts[i1]
    modifies data
    ensures RowsFrom(data[..], width, starts) == Exchange(old(RowsFrom(data[..], width, starts)), i0, i1)
  {
    ghost var was := data[..];
    for k := 0 to width
      invariant forall x | 0 <= x < data.Length :: data[x] == SwappedAt(was, b0, b1, k, x)
    {
      data[b0 + k], data[b1 + k] := data[b1 + k], data[b0 + k];
    }
    forall x | 0 <= x < data.Length
      ensures ElementSwapped(was, data[..], b0, b1, width, x)
    {
    }
    SwappedRows(was, data[..], width, starts, i0, i1);
  }

  ghost predicate ElementSwapped<T>(was: seq<T>, now: seq<T>, b0: nat, b1: nat, width: nat, x: nat)
    requires x < |was| == |now| && b0 + width <= |was| && b1 + width <= |was|
  {
    now[x] == SwappedAt(was, b0, b1, width, x)
  }

  /** The element at x once the first k elements of the blocks at b0 and b1 have changed places. */
  ghost function SwappedAt<T>(was: seq<T>, b0: nat, b1: nat, k: nat, x: nat): T
    requires x < |was| && b0 + k <= |was| && b1 + k <= |was|
  {
    if b0 <= x < b0 + k then was[x - b0 + b1]
    else if b1 <= x < b1 + k then was[x - b1 + b0]
    else was[x]
  }

  lemma SwappedRows<T>(was: seq<T>, now: seq<T>, width: nat, starts: seq<nat>, i0: nat, i1: nat)
    requires |was| == |now| && Layout(starts, width, |was|) && i0 < |starts| && i1 < |starts|
    requires forall x | 0 <= x < |now| :: ElementSwapped(was, now, starts[i0], starts[i1], width, x)
    ensures RowsFrom(now, width, starts) == Exchange(RowsFrom(was, width, starts), i0, i1)
  {
    var rows, rows' := RowsFrom(was, width, starts), RowsFrom(now, width, starts);
    forall r | 0 <= r < |starts|
      ensures rows'[r] == rows[Source(r, i0, i1)]
    {
      SwappedRow(was, now, width, starts, i0, i1, r);
    }
    assert rows' == Exchange(rows, i0, i1);
  }

  /** Where row r comes from. */
  function Source(r: nat, i0: nat, i1: nat): nat {
    if r == i1 then i0 else if r == i0 then i1 else r
  }

  lemma SwappedRow<T>(was: seq<T>, now: seq<T>, width: nat, starts: seq<nat>, i0: nat, i1: nat, r: nat)
    requires |was| == |now| && Layout(starts, width, |was|) && i0 < |starts| && i1 < |starts| && r < |starts|
    requires forall x | 0 <= x < |now| :: ElementSwapped(was, now, starts[i0], starts[i1], width, x)
    ensures now[starts[r]..starts[r] + width] == was[starts[Source(r, i0, i1)]..starts[Source(r, i0, i1)] + width]
  {
    assert r < i0 ==> starts[r] + width <= starts[i0];
    assert r < i1 ==> starts[r] + width <= starts[i1];
    SwappedBlock(was, now, width, starts[i0], starts[i1], starts[r], starts[Source(r, i0, i1)]);
  }

  lemma SwappedBlock<T>(was: seq<T>, now: seq<T>, width: nat, b0: nat, b1: nat, b: nat, from: nat)
    requires |was| == |now| && b0 + width <= |was| && b1 + width <= |was| && b + width <= |was|
    requires forall x | 0 <= x < |now| :: ElementSwapped(was, now, b0, b1, width, x)
    requires b0 == b1 || b0 + width <= b1 || b1 + width <= b0
    requires (b == b0 && from == b1) || (b == b1 && from == b0)
        || (b == from && Apart(b, b0, width) && Apart(b, b1, width))
    ensures now[b..b + width] == was[from..from + width]
  {
    var x, y := now[b..b + width], was[from..from + width];
    forall k | 0 <= k < width
      ensures x[k] == y[k]
    {
      assert ElementSwapped(was, now, b0, b1, width, b + k);
    }
  }

  predicate Apart(b: nat, c: nat, width: nat) {
    b + width <= c || c + width <= b
  }

  /** Writes one row of the buffer. */
  method StoreRow<T>(data: array<T>, width: nat, r: nat, row: seq<T>, ghost n: nat)
    requires r < n && width * n <= data.Length && |row| == width
    modifies data
    ensures Rows(data[..], width, n) == old(Rows(data[..], width, n))[r := row]
  {
    RowStartsLayout(width, n);
    LayoutFits(RowStarts(width, n), width, width * n, data.Length);
    StoreBlock(data, RowStarts(width, n), r, r * width, row);
  }

  method StoreBlock<T>(data: array<T>, ghost starts: seq<nat>, ghost r: nat, b: nat, row: seq<T>)
    requires Layout(starts, |row|, data.Length) && r < |starts| && b == starts[r]
    modifies data
    ensures RowsFrom(data[..], |row|, starts) == old(RowsFrom(data[..], |row|, starts))[r := row]
  {
    ghost var was := data[..];
    for k := 0 to |row|
      invariant forall x | 0 <= x < data.Length :: data[x] == if b <= x < b + k then row[x - b] else was[x]
    {
      data[b + k] := row[k];
    }
    StoredRows(was, data[..], starts, r, row);
  }

  lemma StoredRows<T>(was: seq<T>, now: seq<T>, starts: seq<nat>, r: nat, row: seq<T>)
    requires |was| == |now| && Layout(starts, |row|, |was|) && r < |starts|
    requires forall x | 0 <= x < |now| ::
               now[x] == if starts[r] <= x < starts[r] + |row| then row[x - starts[r]] else was[x]
    ensures RowsFrom(now, |row|, starts) == RowsFrom(was, |row|, starts)[r := row]
  {
    forall s | 0 <= s < |starts|
      ensures RowsFrom(now, |row|, starts)[s] == RowsFrom(was, |row|, starts)[r := row][s]
    {
      assert s < r ==> starts[s] + |row| <= starts[r];
      StoredBlock(was, now, starts[r], row, starts[s], s == r);
    }
  }

  lemma StoredBlock<T>(was: seq<T>, now: seq<T>, b0: nat, row: seq<T>, b: nat, here: bool)
    requires |was| == |now| && b0 + |row| <= |was| && b + |row| <= |was|
    requires forall x | 0 <= x < |now| :: now[x] == if b0 <= x < b0 + |row| then row[x - b0] else was[x]
    requires if here then b == b0 else Apart(b, b0, |row|)
    ensures now[b..b + |row|] == if here then row else was[b..b + |row|]
  {
    var x, y := now[b..b + |row|], was[b..b + |row|];
    forall k | 0 <= k < |row|
      ensures x[k] == if here then row[k] else y[k]
    {
      assert x[k] == now[b + k] && y[k] == was[b + k];
    }
  }

  // ---- batch order -------------------------------------------------------------------

  lemma {:induction false} AscendingUnique(xs: seq<nat>, ys: seq<nat>)
    requires Ascending(xs) && Ascending(ys) && SameElements(xs, ys)
    ensures xs == ys
    decreases |xs|
  {
    if xs != [] {
      var n := |xs| - 1;
      assert xs[n] in ys && ys[n] in xs;
      assert xs[n] == ys[n];
      forall x
        ensures x in xs[..n] <==> x in ys[..n]
      {
        assert xs == xs[..n] + [xs[n]] && ys == ys[..n] + [ys[n]];
        assert x in xs <==> x in ys;
        assert xs[n] !in xs[..n] && ys[n] !in ys[..n];
      }
      AscendingUnique(xs[..n], ys[..n]);
      assert xs == xs[..n] + [xs[n]] && ys == ys[..n] + [ys[n]];
    }
  }

  lemma {:induction false} FlaggedToAscending(output: seq<bool>, xs: seq<nat>, n: nat)
    requires n <= |xs| && Ascending(xs)
    ensures Ascending(FlaggedTo(output, xs, n))
    ensures forall x :: x in FlaggedTo(output, xs, n) <==> x in xs[..n] && x < |output| && output[x]
  {
    if n > 0 {
      FlaggedToAscending(output, xs, n - 1);
      assert xs[..n] == xs[..n - 1] + [xs[n - 1]];
      var front := FlaggedTo(output, xs, n - 1);
      forall p | 0 <= p < |front|
        ensures front[p] < xs[n - 1]
      {
        assert front[p] in front;
      }
    }
  }

  /** The wanted tokens in the order of the user's batch. */
  function WantedInBatchOrder(output: seq<bool>): seq<nat> {
    Flagged(output, Range(0, |output|))
  }

  lemma WantedInBatchOrderIs(output: seq<bool>)
    ensures Ascending(WantedInBatchOrder(output))
    ensures forall i :: i in WantedInBatchOrder(output) <==> 0 <= i < |output| && output[i]
  {
    var all := Range(0, |output|);
    FlaggedToAscending(output, all, |all|);
    assert all[..|all|] == all;
    forall i | 0 <= i < |output|
      ensures i in all
    {
      assert all[i] == i;
    }
  }

  lemma {:induction false} RowsToPrefix(ubs: seq<UBatch>, m: nat, n: nat)
    requires m <= n <= |ubs|
    ensures RowsTo(ubs, m) <= RowsTo(ubs, n)
    decreases n
  {
    if m < n {
      RowsToPrefix(ubs, m, n - 1);
    }
  }

  /** The number of outputs among the first n micro-batches. */
  ghost function OutputsBefore(output: seq<bool>, ubs: seq<UBatch>, n: nat): nat
    requires n <= |ubs|
  {
    if n == 0 then 0 else OutputsBefore(output, ubs, n - 1) + |Flagged(output, ubs[n - 1].idxs)|
  }

  lemma {:induction false} OutputsCounted(output: seq<bool>, ubs: seq<UBatch>, n: nat)
    requires n <= |ubs|
    ensures OutputsBefore(output, ubs, n) == |Flagged(output, RowsTo(ubs, n))|
  {
    if n > 0 {
      OutputsCounted(output, ubs, n - 1);
      FlaggedAppend(output, RowsTo(ubs, n - 1), ubs[n - 1].idxs);
    }
  }

  lemma {:induction false} OutputsGrow(output: seq<bool>, ubs: seq<UBatch>, m: nat, n: nat)
    requires m <= n <= |ubs|
    ensures OutputsBefore(output, ubs, m) <= OutputsBefore(output, ubs, n)
    decreases n
  {
    if m < n {
      OutputsGrow(output, ubs, m, n - 1);
    }
  }

  /** Outputs of a part of the split come first among the outputs of the whole. */
  lemma FlaggedPrefix(output: seq<bool>, xs: seq<nat>, ys: seq<nat>)
    requires xs <= ys
    ensures Flagged(output, xs) <= Flagged(output, ys)
  {
    assert ys == xs + ys[|xs|..];
    FlaggedAppend(output, xs, ys[|xs|..]);
  }

  /** When as many outputs are wanted as there are tokens, every token is wanted. */
  lemma AllWanted(output: seq<bool>)
    requires |set i | 0 <= i < |output| && output[i]| == |output|
    ensures forall i | 0 <= i < |output| :: output[i]
  {
    var s: set<nat> := set i | 0 <= i < |output| && output[i];
    forall i: nat | i < |output|
      ensures output[i]
    {
      if i !in s {
        SmallerSet(s, UpTo(|output|) - {i});
      }
    }
  }

  lemma {:induction false} AllFlaggedTo(output: seq<bool>, xs: seq<nat>, n: nat)
    requires n <= |xs| && forall k | 0 <= k < |xs| :: xs[k] < |output| && output[xs[k]]
    ensures FlaggedTo(output, xs, n) == xs[..n]
  {
    if n > 0 {
      AllFlaggedTo(output, xs, n - 1);
    }
  }

  // ---- the output side of a context --------------------------------------------------

  /** output_ids of size n: the row of each token in ids, -1 for the others. */
  ghost predicate Indexed(outputIds: seq<int>, ids: seq<nat>) {
    && (forall r | 0 <= r < |ids| :: ids[r] < |outputIds| && outputIds[ids[r]] == r)
    && forall t | 0 <= t < |outputIds| && t !in ids :: outputIds[t] == -1
  }

  /** A table of rows lists one order only. */
  lemma IndexedUnique(ids: seq<int>, xs: seq<nat>, ys: seq<nat>)
    requires Indexed(ids, xs) && Indexed(ids, ys) && |xs| == |ys|
    ensures xs == ys
  {
    forall r | 0 <= r < |ys| ensures xs[r] == ys[r] {
      assert ids[ys[r]] == r;
    }
  }

  /** Forgetting swaps leaves the table of rows right only if there were none. */
  lemma SwapsForgotten(order: seq<nat>, ids: seq<int>, swaps: seq<Swap>)
    requires SwapsInRange(swaps, |order|) && Rising(swaps)
    requires Indexed(ids, Replay(order, swaps, |swaps|))
    ensures Ascending(order) && Indexed(ids, order) ==> swaps == []
  {
    var final := Replay(order, swaps, |swaps|);
    if Ascending(order) && Indexed(ids, order) {
      IndexedUnique(ids, final, order);
      AscendingHasNoDuplicates(order);
      SwapsMove(order, swaps);
    }
  }

  /** The wanted rows of a micro-batch, by its own copy of the flags. */
  function PickedTo(ub: UBatch, n: nat): seq<nat>
    requires n <= |ub.idxs| == |ub.output|
  {
    if n == 0 then []
    else if ub.output[n - 1] then PickedTo(ub, n - 1) + [ub.idxs[n - 1]]
    else PickedTo(ub, n - 1)
  }

  ghost predicate Picks(ub: UBatch, wanted: seq<nat>)
    requires |ub.idxs| == |ub.output|
  {
    PickedTo(ub, |ub.idxs|) == wanted
  }

  lemma {:induction false} PickedIsFlagged(b: Batch, ub: UBatch, n: nat)
    requires b.WellFormed() && CarriesRows(b, ub) && n <= |ub.idxs|
    ensures PickedTo(ub, n) == FlaggedTo(b.output, ub.idxs, n)
  {
    if n > 0 {
      PickedIsFlagged(b, ub, n - 1);
    }
  }

  lemma {:induction false} PickedPrefix(ub: UBatch, m: nat, n: nat)
    requires m <= n <= |ub.idxs| == |ub.output|
    ensures PickedTo(ub, m) <= PickedTo(ub, n)
    decreases n
  {
    if m < n {
      PickedPrefix(ub, m, n - 1);
    }
  }

  /** The next row of the micro-batch's block belongs to its next wanted token. */
  lemma PickedNext(ub: UBatch, wanted: seq<nat>, outIds: seq<nat>, prev: nat, i: nat)
    requires |ub.output| == |ub.idxs| && Picks(ub, wanted) && i < |ub.idxs| && ub.output[i]
    requires prev + |wanted| <= |outIds| && outIds[prev..prev + |wanted|] == wanted
    ensures var k := |PickedTo(ub, i)|; k < |wanted| && outIds[prev + k] == ub.idxs[i]
  {
    PickedPrefix(ub, i + 1, |ub.idxs|);
    var k := |PickedTo(ub, i)|;
    assert wanted[k] == PickedTo(ub, i + 1)[k];
    assert outIds[prev + k] == outIds[prev..prev + |wanted|][k];
  }

  lemma AscendingHasNoDuplicates(xs: seq<nat>)
    requires Ascending(xs)
    ensures NoDuplicates(xs)
  {
  }

  lemma WantedFits(b: Batch, emitted: seq<nat>, outIds: seq<nat>)
    requires b.WellFormed() && Complete(b.Sets(), emitted) && outIds == Flagged(b.output, emitted)
    ensures NoDuplicates(outIds) && forall r | 0 <= r < |outIds| :: outIds[r] < |b.seqIds|
    ensures SameElements(outIds, WantedInBatchOrder(b.output)) && Ascending(WantedInBatchOrder(b.output))
  {
    var ys := WantedInBatchOrder(b.output);
    var wanted: set<nat> := set i | 0 <= i < |b.output| && b.output[i];
    OutIdsExactlyFlagged(b.output, b.Sets(), emitted, outIds);
    WantedInBatchOrderIs(b.output);
    AscendingHasNoDuplicates(ys);
    NoDuplicatesCount(ys, wanted);
    forall r | 0 <= r < |outIds|
      ensures outIds[r] < |b.seqIds|
    {
      assert outIds[r] in outIds;
    }
  }

  lemma BlockStands(output: seq<bool>, ubs: seq<UBatch>, u: nat, outIds: seq<nat>)
    requires u < |ubs| && outIds == Flagged(output, RowsTo(ubs, |ubs|))
    ensures var a, w := OutputsBefore(output, ubs, u), Flagged(output, ubs[u].idxs);
            a + |w| <= |outIds| && outIds[a..a + |w|] == w
  {
    var before, w := Flagged(output, RowsTo(ubs, u)), Flagged(output, ubs[u].idxs);
    OutputsCounted(output, ubs, u);
    FlaggedAppend(output, RowsTo(ubs, u), ubs[u].idxs);
    RowsToPrefix(ubs, u + 1, |ubs|);
    FlaggedPrefix(output, RowsTo(ubs, u + 1), RowsTo(ubs, |ubs|));
    assert before + w <= outIds;
    assert outIds[|before|..|before| + |w|] == (before + w)[|before|..];
  }

  /** Where the outputs of the u-th micro-batch stand among all outputs. */
  lemma OutputsOf(b: Batch, ubs: seq<UBatch>, u: nat, outIds: seq<nat>)
    requires b.WellFormed() && u < |ubs| && CarriesRows(b, ubs[u])
    requires outIds == Flagged(b.output, RowsTo(ubs, |ubs|))
    ensures var a, w := OutputsBefore(b.output, ubs, u), Flagged(b.output, ubs[u].idxs);
            a + |w| <= |outIds| && outIds[a..a + |w|] == w && Picks(ubs[u], w)
  {
    BlockStands(b.output, ubs, u, outIds);
    PickedIsFlagged(b, ubs[u], |ubs[u].idxs|);
  }

  /** Some wanted token of the micro-batch has a sequence without a backend sampler. */
  ghost predicate RawNeeded(ub: UBatch, samplers: set<nat>)
    requires |ub.output| == |ub.seqIds|
  {
    exists i: nat :: i < |ub.output| && ub.output[i] && Unsampled(ub.seqIds[i], samplers)
  }

  ghost predicate Unsampled(ids: seq<nat>, samplers: set<nat>) {
    exists j :: 0 <= j < |ids| && ids[j] !in samplers
  }

  ghost predicate WellSized(ubs: seq<UBatch>) {
    forall u | 0 <= u < |ubs| :: |ubs[u].output| == |ubs[u].seqIds| == |ubs[u].idxs|
  }

  /** One of the first n micro-batches copied the logits of token t to the host. */
  ghost predicate CopiedBy(output: seq<bool>, ubs: seq<UBatch>, samplers: set<nat>, n: nat, t: nat)
    requires n <= |ubs| && WellSized(ubs)
  {
    exists u: nat :: u < n && RawNeeded(ubs[u], samplers) && t in Flagged(output, ubs[u].idxs)
  }

  /** Row r after the first n micro-batches: the logits of its token if they were copied, else what was
    * left there from before. */
  ghost function Made<T>(output: seq<bool>, ubs: seq<UBatch>, samplers: set<nat>, n: nat, compute: nat -> seq<T>,
                         outIds: seq<nat>, left: seq<seq<T>>, r: nat): seq<T>
    requires n <= |ubs| && WellSized(ubs) && r < |outIds| == |left|
  {
    if CopiedBy(output, ubs, samplers, n, outIds[r]) then compute(outIds[r]) else left[r]
  }

  ghost predicate RowsMade<T>(output: seq<bool>, ubs: seq<UBatch>, samplers: set<nat>, n: nat,
                              compute: nat -> seq<T>, outIds: seq<nat>, left: seq<seq<T>>, rows: seq<seq<T>>)
    requires n <= |ubs| && WellSized(ubs) && |outIds| == |left|
  {
    && |rows| <= |outIds|
    && forall r: nat | r < |rows| :: rows[r] == Made(output, ubs, samplers, n, compute, outIds, left, r)
  }

  /** A micro-batch copies exactly the block of rows that belongs to it, if it copies any. */
  lemma CopiedStep(output: seq<bool>, ubs: seq<UBatch>, samplers: set<nat>, u: nat, outIds: seq<nat>, r: nat)
    requires u < |ubs| && WellSized(ubs) && r < |outIds| && NoDuplicates(outIds)
    requires outIds == Flagged(output, RowsTo(ubs, |ubs|))
    ensures var a, w := OutputsBefore(output, ubs, u), Flagged(output, ubs[u].idxs);
            CopiedBy(output, ubs, samplers, u + 1, outIds[r])
            <==> if a <= r < a + |w| then RawNeeded(ubs[u], samplers) else CopiedBy(output, ubs, samplers, u, outIds[r])
  {
    BlockOf(output, ubs, u, outIds, r);
    var a, w := OutputsBefore(output, ubs, u), Flagged(output, ubs[u].idxs);
    if a <= r < a + |w| && CopiedBy(output, ubs, samplers, u, outIds[r]) {
      var v: nat :| v < u && RawNeeded(ubs[v], samplers) && outIds[r] in Flagged(output, ubs[v].idxs);
      BlockOf(output, ubs, v, outIds, r);
      OutputsGrow(output, ubs, v + 1, u);
      assert false;
    }
  }

  /** The outputs of a micro-batch are the outputs that stand in its block. */
  lemma BlockOf(output: seq<bool>, ubs: seq<UBatch>, u: nat, outIds: seq<nat>, r: nat)
    requires u < |ubs| && r < |outIds| && NoDuplicates(outIds) && outIds == Flagged(output, RowsTo(ubs, |ubs|))
    ensures var a, w := OutputsBefore(output, ubs, u), Flagged(output, ubs[u].idxs);
            outIds[r] in w <==> a <= r < a + |w|
  {
    BlockStands(output, ubs, u, outIds);
    InBlock(outIds, OutputsBefore(output, ubs, u), Flagged(output, ubs[u].idxs), r);
  }

  lemma InBlock(xs: seq<nat>, a: nat, w: seq<nat>, r: nat)
    requires NoDuplicates(xs) && r < |xs| && a + |w| <= |xs| && xs[a..a + |w|] == w
    ensures xs[r] in w <==> a <= r < a + |w|
  {
    assert forall k | 0 <= k < |w| :: w[k] == xs[a..a + |w|][k] == xs[a + k];
    if a <= r < a + |w| {
      assert w[r - a] == xs[r];
    }
  }

  /** Rows lo to hi now hold what their tokens computed, all others what they held. */
  ghost predicate BlockStored<T>(was: seq<seq<T>>, now: seq<seq<T>>, lo: nat, hi: nat, compute: nat -> seq<T>,
                                 outIds: seq<nat>)
  {
    && |was| == |now| == |outIds|
    && forall r: nat | r < |now| :: now[r] == if lo <= r < hi then compute(outIds[r]) else was[r]
  }

  lemma BlockGrows<T>(was: seq<seq<T>>, now: seq<seq<T>>, next: seq<seq<T>>, lo: nat, hi: nat,
                      compute: nat -> seq<T>, outIds: seq<nat>)
    requires BlockStored(was, now, lo, hi, compute, outIds) && lo <= hi < |now|
    requires next == now[hi := compute(outIds[hi])]
    ensures BlockStored(was, next, lo, hi + 1, compute, outIds)
  {
  }

  lemma MadeStep<T>(output: seq<bool>, ubs: seq<UBatch>, samplers: set<nat>, u: nat, compute: nat -> seq<T>,
                    outIds: seq<nat>, left: seq<seq<T>>, was: seq<seq<T>>, now: seq<seq<T>>)
    requires u < |ubs| && WellSized(ubs) && NoDuplicates(outIds) && |outIds| == |left| == |was|
    requires outIds == Flagged(output, RowsTo(ubs, |ubs|))
    requires RowsMade(output, ubs, samplers, u, compute, outIds, left, was)
    requires var a := OutputsBefore(output, ubs, u);
             if RawNeeded(ubs[u], samplers)
             then BlockStored(was, now, a, a + |Flagged(output, ubs[u].idxs)|, compute, outIds) else now == was
    ensures RowsMade(output, ubs, samplers, u + 1, compute, outIds, left, now)
  {
    forall r: nat | r < |now|
      ensures now[r] == Made(output, ubs, samplers, u + 1, compute, outIds, left, r)
    {
      CopiedStep(output, ubs, samplers, u, outIds, r);
    }
  }

  /** done micro-batches succeeded, and the next one did not. */
  ghost predicate Progress(ubs: seq<UBatch>, succeeds: nat -> bool, done: nat) {
    done <= |ubs| && (forall v | 0 <= v < done :: succeeds(v)) && (done < |ubs| ==> !succeeds(done))
  }

  /** Fewer rows of a buffer are the first of more rows. */
  lemma RowsPrefix<T>(data: seq<T>, width: nat, m: nat, n: nat)
    requires m <= n && width * m <= |data| && width * n <= |data|
    ensures Rows(data, width, m) <= Rows(data, width, n)
  {
    RowStartsLayout(width, m);
    RowStartsLayout(width, n);
  }

  /** Replaying the swaps on rows and on the ids that label them keeps the labels right. */
  lemma ReplayHolds<T>(ids: seq<nat>, rows: seq<seq<T>>, of: nat -> seq<T>, swaps: seq<Swap>)
    requires SwapsInRange(swaps, |ids|) && RowsHold(rows, ids, of)
    ensures RowsHold(Replay(rows, swaps, |swaps|), Replay(ids, swaps, |swaps|), of)
  {
    forall r | 0 <= r < |ids|
      ensures rows[r] == of(ids[r])
    {
      assert RowHolds(rows, ids, of, r);
    }
    ReplayCarries(ids, rows, of, swaps, |swaps|);
  }

  /** Row r is the row of the token ids[r]. */
  ghost predicate RowsHold<T>(rows: seq<seq<T>>, ids: seq<nat>, of: nat -> seq<T>) {
    |rows| == |ids| && forall r | 0 <= r < |rows| :: RowHolds(rows, ids, of, r)
  }

  ghost predicate RowHolds<T>(rows: seq<seq<T>>, ids: seq<nat>, of: nat -> seq<T>, r: nat)
    requires r < |rows| == |ids|
  {
    rows[r] == of(ids[r])
  }

  lemma HeldRow<T>(rows: seq<seq<T>>, ids: seq<nat>, of: nat -> seq<T>, r: nat)
    requires r < |rows| == |ids|
    ensures RowsHold(rows, ids, of) ==> rows[r] == of(ids[r])
  {
    assert RowsHold(rows, ids, of) ==> RowHolds(rows, ids, of, r);
  }

  class Outputs<T(0)> {
    const nVocab: nat
    const nBatch: nat
    const nSeqMax: nat
    /** The output buffer; a view of its front is in use. */
    var logits: array<T>
    var nOutputs: nat
    var outputIds: seq<int>
    var outputSwaps: seq<Swap>
    /** The token whose logits are in each row now. */
    ghost var order: seq<nat>

    /** The tokens by row once the recorded swaps are replayed. */
    ghost function Final(): seq<nat>
      reads this
      requires SwapsInRange(outputSwaps, |order|)
    {
      Replay(order, outputSwaps, |outputSwaps|)
    }

    /** Every wanted token is mapped to the row that will hold it after the replay. */
    ghost predicate Mapped()
      reads this
    {
      && nOutputs == |order| && nVocab * nOutputs <= logits.Length && |outputIds| == nBatch
      && SwapsInRange(outputSwaps, |order|) && Rising(outputSwaps)
      && Ascending(Final())
      && Indexed(outputIds, Final())
    }

    /** What holds in every state, after any decode: the rows in use and the recorded swaps are in range. */
    ghost predicate Sane()
      reads this
    {
      nVocab * nOutputs <= logits.Length && |outputIds| == nBatch && SwapsInRange(outputSwaps, nOutputs)
    }

    /** The rows in use. */
    ghost function Current(): (rows: seq<seq<T>>)
      reads this, logits
      requires nVocab * nOutputs <= logits.Length
      ensures |rows| == nOutputs
    {
      Rows(logits[..], nVocab, nOutputs)
    }

    /** Each row holds what it should for the token it stands for. */
    ghost predicate Holds(of: nat -> seq<T>)
      reads this, logits
    {
      && nOutputs == |order| && nVocab * nOutputs <= logits.Length
      && RowsHold(Current(), order, of)
    }

    /** After a decode that broke off: room for the rows, but no token is mapped. */
    ghost predicate Unmapped()
      reads this
    {
      && nVocab * nOutputs <= logits.Length && |outputIds| == nBatch && outputSwaps == []
      && forall t | 0 <= t < nBatch :: outputIds[t] == -1
    }

    constructor (nVocab: nat, nBatch: nat, nSeqMax: nat)
      ensures this.nVocab == nVocab && this.nBatch == nBatch && this.nSeqMax == nSeqMax && Mapped() && nOutputs == 0
    {
      this.nVocab, this.nBatch, this.nSeqMax := nVocab, nBatch, nSeqMax;
      logits := new T[0];
      nOutputs, outputSwaps, order := 0, [], [];
      outputIds := seq(nBatch, _ => -1);
    }

    /** `output_reserve`: room for n rows and for one per sequence, no token mapped. The buffer is kept
      * if it is large enough. */
    method OutputReserve(n: nat) returns (nOutputsMax: nat)
      modifies `logits, `outputIds, `nOutputs
      ensures nOutputsMax == if n < nSeqMax then nSeqMax else n
      ensures if nVocab * nOutputsMax <= old(logits.Length) then logits == old(logits)
              else fresh(logits) && logits.Length == nVocab * nOutputsMax
      ensures nVocab * n <= nVocab * nOutputsMax <= logits.Length && nOutputs == 0
      ensures |outputIds| == nBatch && forall t | 0 <= t < nBatch :: outputIds[t] == -1
    {
      nOutputsMax := if n < nSeqMax then nSeqMax else n;
      MultiplyOrder(n, nOutputsMax, nVocab);
      if logits.Length < nVocab * nOutputsMax {
        logits := new T[nVocab * nOutputsMax];
      }
      outputIds := seq(nBatch, _ => -1);
      nOutputs := 0;
    }

    /** A decode forgets the swaps still pending from the last one. The old mapping survives this exactly
      * if none is pending. */
    method ClearSwaps()
      modifies `outputSwaps
      ensures outputSwaps == [] && (old(Sane()) ==> Sane())
      ensures old(Mapped()) ==> (Mapped() <==> old(outputSwaps) == [])
    {
      if nOutputs == |order| && SwapsInRange(outputSwaps, |order|) && Rising(outputSwaps) && Ascending(Final())
         && Indexed(outputIds, Final()) {
        SwapsForgotten(order, outputIds, outputSwaps);
      }
      outputSwaps := [];
      assert Final() == order;
    }

    /** The body of `decode`: the rows the graph computes for the wanted tokens of each micro-batch are
      * appended to the buffer, then the mapping is set up. Rows end up, once the swaps are replayed,
      * in the order of the user's batch. If a micro-batch fails, nothing is mapped. left is what the
      * buffer held before, done the number of micro-batches computed. */
    method Decode(b: Batch, nOutputsAll: nat, ubatches: seq<UBatch>, outIds: seq<nat>, samplers: set<nat>,
                  compute: nat -> seq<T>, succeeds: nat -> bool)
      returns (done: nat, ghost left: seq<seq<T>>)
      requires b.WellFormed() && |b.seqIds| <= nBatch && outputSwaps == []
      requires nOutputsAll == |set i | 0 <= i < |b.output| && b.output[i]|
      requires WellSized(ubatches) && forall u | 0 <= u < |ubatches| :: CarriesRows(b, ubatches[u])
      requires Complete(b.Sets(), RowsTo(ubatches, |ubatches|))
      requires outIds == Flagged(b.output, RowsTo(ubatches, |ubatches|))
      requires forall t :: |compute(t)| == nVocab
      modifies this, logits
      ensures logits == old(logits) || fresh(logits)
      ensures Sane() && |left| == |outIds| && Progress(ubatches, succeeds, done)
      ensures RowsMade(b.output, ubatches, samplers, done, compute, outIds, left, Current())
      ensures done == |ubatches| ==> Mapped() && order == outIds && Final() == WantedInBatchOrder(b.output)
      ensures done == |ubatches| ==> (outputSwaps == [] <==> Ascending(outIds))
      ensures done < |ubatches| ==> Unmapped() && nOutputs == |Flagged(b.output, ubatches[done].idxs)|
    {
      OutIdsExactlyFlagged(b.output, b.Sets(), RowsTo(ubatches, |ubatches|), outIds);
      var _ := OutputReserve(nOutputsAll);
      left := Rows(logits[..], nVocab, nOutputsAll);
      done := ExtractAll(b, nOutputsAll, ubatches, outIds, samplers, compute, succeeds, left);
      RowsPrefix(logits[..], nVocab, nOutputs, nOutputsAll);
      if done == |ubatches| {
        WantedFits(b, RowsTo(ubatches, |ubatches|), outIds);
        SetOutputMapping(outIds);
        AscendingUnique(Final(), WantedInBatchOrder(b.output));
        if Ascending(outIds) {
          AscendingUnique(outIds, Final());
          SwapsMove(outIds, outputSwaps);
        }
      }
    }

    /** Fills the rows micro-batch by micro-batch, up to the first that fails. */
    method ExtractAll(b: Batch, nOutputsAll: nat, ubatches: seq<UBatch>, ghost outIds: seq<nat>, samplers: set<nat>,
                      compute: nat -> seq<T>, succeeds: nat -> bool, ghost left: seq<seq<T>>)
      returns (done: nat)
      requires b.WellFormed() && nOutputsAll == |set i | 0 <= i < |b.output| && b.output[i]|
      requires WellSized(ubatches) && forall u | 0 <= u < |ubatches| :: CarriesRows(b, ubatches[u])
      requires |outIds| == nOutputsAll && outIds == Flagged(b.output, RowsTo(ubatches, |ubatches|))
      requires NoDuplicates(outIds) && forall t :: |compute(t)| == nVocab
      requires nVocab * nOutputsAll <= logits.Length && nOutputs == 0
      requires left == Rows(logits[..], nVocab, nOutputsAll)
      modifies logits, `nOutputs
      ensures Progress(ubatches, succeeds, done) && nOutputs <= nOutputsAll && nVocab * nOutputs <= logits.Length
      ensures RowsMade(b.output, ubatches, samplers, done, compute, outIds, left,
                       Rows(logits[..], nVocab, nOutputsAll))
      ensures done < |ubatches| ==> nOutputs == |Flagged(b.output, ubatches[done].idxs)|
    {
      var prev := 0;
      for u := 0 to |ubatches|
        invariant prev == OutputsBefore(b.output, ubatches, u) && nOutputs <= nOutputsAll
        invariant RowsMade(b.output, ubatches, samplers, u, compute, outIds, left,
                           Rows(logits[..], nVocab, nOutputsAll))
        invariant forall v | 0 <= v < u :: succeeds(v)
      {
        OutputsOf(b, ubatches, u, outIds);
        nOutputs := CountNew(b, nOutputsAll, ubatches[u]);
        MultiplyOrder(nOutputs, nOutputsAll, nVocab);
        if !succeeds(u) {
          return u;
        }
        ExtractOne(b, nOutputsAll, ubatches, u, prev, outIds, samplers, compute, left);
        prev := prev + nOutputs;
      }
      MultiplyOrder(nOutputs, nOutputsAll, nVocab);
      done := |ubatches|;
    }

    /** Copies the rows of micro-batch u, if the host needs any of them. */
    method ExtractOne(b: Batch, nOutputsAll: nat, ubatches: seq<UBatch>, u: nat, prev: nat, ghost outIds: seq<nat>,
                      samplers: set<nat>, compute: nat -> seq<T>, ghost left: seq<seq<T>>)
      requires b.WellFormed() && u < |ubatches| && WellSized(ubatches) && CarriesRows(b, ubatches[u])
      requires |outIds| == nOutputsAll == |left| && outIds == Flagged(b.output, RowsTo(ubatches, |ubatches|))
      requires NoDuplicates(outIds) && (forall t :: |compute(t)| == nVocab) && nVocab * nOutputsAll <= logits.Length
      requires prev == OutputsBefore(b.output, ubatches, u)
      requires RowsMade(b.output, ubatches, samplers, u, compute, outIds, left,
                        Rows(logits[..], nVocab, nOutputsAll))
      modifies logits
      ensures RowsMade(b.output, ubatches, samplers, u + 1, compute, outIds, left,
                       Rows(logits[..], nVocab, nOutputsAll))
    {
      ghost var rows := Rows(logits[..], nVocab, nOutputsAll);
      var raw := NeedsRawLogits(ubatches[u], samplers);
      if raw {
        OutputsOf(b, ubatches, u, outIds);
        ExtractLogits(ubatches[u], prev, nOutputsAll, compute, Flagged(b.output, ubatches[u].idxs), outIds);
      }
      MadeStep(b.output, ubatches, samplers, u, compute, outIds, left, rows, Rows(logits[..], nVocab, nOutputsAll));
    }

    /** Whether the host needs the logits of a micro-batch at all. */
    static method NeedsRawLogits(ub: UBatch, samplers: set<nat>) returns (raw: bool)
      requires |ub.output| == |ub.seqIds|
      ensures raw <==> RawNeeded(ub, samplers)
    {
      for i := 0 to |ub.output|
        invariant forall k | 0 <= k < i :: ub.output[k] ==> !Unsampled(ub.seqIds[k], samplers)
      {
        if ub.output[i] {
          for j := 0 to |ub.seqIds[i]|
            invariant forall k | 0 <= k < j :: ub.seqIds[i][k] in samplers
          {
            if ub.seqIds[i][j] !in samplers {
              assert Unsampled(ub.seqIds[i], samplers);
              return true;
            }
          }
        }
      }
      raw := false;
    }

    /** The number of outputs of one micro-batch. */
    static method CountNew(b: Batch, nOutputsAll: nat, ub: UBatch) returns (n: nat)
      requires b.WellFormed() && CarriesRows(b, ub)
      requires nOutputsAll == |set i | 0 <= i < |b.output| && b.output[i]|
      ensures n == |Flagged(b.output, ub.idxs)|
    {
      if nOutputsAll == |b.seqIds| {
        AllWanted(b.output);
        AllFlaggedTo(b.output, ub.idxs, |ub.idxs|);
        return |ub.idxs|;
      }
      n := 0;
      for i := 0 to |ub.output|
        invariant n == |FlaggedTo(b.output, ub.idxs, i)|
      {
        if ub.output[i] {
          n := n + 1;
        }
      }
    }

    /** Copies the graph's output rows of one micro-batch behind the rows already there. */
    method ExtractLogits(ub: UBatch, prev: nat, n: nat, compute: nat -> seq<T>, ghost wanted: seq<nat>,
                         ghost outIds: seq<nat>)
      requires |ub.output| == |ub.idxs| && nVocab * n <= logits.Length && |outIds| == n
      requires prev + |wanted| <= n && outIds[prev..prev + |wanted|] == wanted
      requires Picks(ub, wanted)
      requires forall t :: |compute(t)| == nVocab
      modifies logits
      ensures BlockStored(old(Rows(logits[..], nVocab, n)), Rows(logits[..], nVocab, n), prev, prev + |wanted|,
                          compute, outIds)
    {
      var row := prev;
      ghost var was := Rows(logits[..], nVocab, n);
      for i := 0 to |ub.idxs|
        invariant row == prev + |PickedTo(ub, i)|
        invariant BlockStored(was, Rows(logits[..], nVocab, n), prev, row, compute, outIds)
      {
        if ub.output[i] {
          PickedNext(ub, wanted, outIds, prev, i);
          ghost var now := Rows(logits[..], nVocab, n);
          StoreRow(logits, nVocab, row, compute(ub.idxs[i]), n);
          BlockGrows(was, now, Rows(logits[..], nVocab, n), prev, row, compute, outIds);
          row := row + 1;
        }
      }
    }

    /** The output mapping at the end of `decode`. */
    method SetOutputMapping(outIds: seq<nat>)
      requires NoDuplicates(outIds) && forall r | 0 <= r < |outIds| :: outIds[r] < nBatch
      requires |outputIds| == nBatch && forall t | 0 <= t < nBatch :: outputIds[t] == -1
      requires outputSwaps == [] && nVocab * |outIds| <= logits.Length
      modifies `nOutputs, `outputIds, `outputSwaps, `order
      ensures Mapped() && order == outIds && SameElements(outIds, Final())
    {
      nOutputs, order := |outIds|, outIds;
      var sortedOutput := true;
      for i := 0 to |outIds|
        invariant |outputIds| == nBatch && outputSwaps == [] && nOutputs == |outIds| && order == outIds
        invariant forall r | 0 <= r < i :: outputIds[outIds[r]] == r
        invariant forall t | 0 <= t < nBatch && t !in outIds[..i] :: outputIds[t] == -1
        invariant sortedOutput <==> forall r | 0 <= r < i :: outIds[r] == r
      {
        assert outIds[..i + 1] == outIds[..i] + [outIds[i]];
        outputIds := outputIds[outIds[i] := i];
        if outIds[i] != i {
          sortedOutput := false;
        }
      }
      assert outIds[..|outIds|] == outIds;
      if !sortedOutput && nOutputs > 1 {
        var sorted, swaps := SortOutIds(outIds);
        outputSwaps := swaps;
        forall r | 0 <= r < |sorted|
          ensures sorted[r] < nBatch
        {
          assert sorted[r] in sorted;
        }
        RenumberOutputs(sorted);
      }
    }

    method RenumberOutputs(sorted: seq<nat>)
      requires Ascending(sorted) && forall r | 0 <= r < |sorted| :: sorted[r] < nBatch
      modifies `outputIds
      ensures |outputIds| == nBatch && Indexed(outputIds, sorted)
    {
      outputIds := seq(nBatch, _ => -1);
      for i := 0 to |sorted|
        invariant |outputIds| == nBatch
        invariant forall r | 0 <= r < i :: outputIds[sorted[r]] == r
        invariant forall t | 0 <= t < nBatch && t !in sorted[..i] :: outputIds[t] == -1
      {
        assert sorted[..i + 1] == sorted[..i] + [sorted[i]];
        outputIds := outputIds[sorted[i] := i];
      }
      assert sorted[..|sorted|] == sorted;
    }

    /** Replays the recorded swaps on the rows, once: a second call finds nothing to do. */
    method OutputReorder(ghost of: nat -> seq<T>)
      requires Sane()
      modifies `outputSwaps, `order, logits
      ensures Sane() && outputSwaps == [] && (old(Unmapped()) ==> Unmapped())
      ensures old(Mapped()) ==> Mapped() && order == Final() == old(Final())
      ensures old(Holds(of)) ==> Holds(of)
      ensures Current() == Replay(old(Current()), old(outputSwaps), |old(outputSwaps)|)
      ensures old(outputSwaps) == [] ==> logits[..] == old(logits[..]) && order == old(order)
    {
      ghost var ids, rows := order, Current();
      ReplaySwaps();
      if |ids| == nOutputs {
        if RowsHold(rows, ids, of) {
          ReplayHolds(ids, rows, of, outputSwaps);
        }
        order := Final();
      }
      outputSwaps := [];
    }

    method ReplaySwaps()
      requires SwapsInRange(outputSwaps, nOutputs) && nVocab * nOutputs <= logits.Length
      modifies logits
      ensures Rows(logits[..], nVocab, nOutputs)
           == Replay(old(Rows(logits[..], nVocab, nOutputs)), outputSwaps, |outputSwaps|)
      ensures outputSwaps == [] ==> logits[..] == old(logits[..])
    {
      ghost var rows := Rows(logits[..], nVocab, nOutputs);
      for s := 0 to |outputSwaps|
        invariant Rows(logits[..], nVocab, nOutputs) == Replay(rows, outputSwaps, s)
        invariant outputSwaps == [] ==> logits[..] == old(logits[..])
      {
        SwapRows(logits, nVocab, outputSwaps[s].i0, outputSwaps[s].i1, nOutputs);
      }
    }

    /** Whether there is a row for index i. */
    ghost predicate Resolves(i: int)
      reads this
    {
      if i < 0 then 0 <= nOutputs + i else i < |outputIds| && 0 <= outputIds[i] < nOutputs
    }

    /** The row of batch token i; negative i counts back from the last row in use. After a decode that
      * broke off no token has a row, and counting back finds rows at the front of the buffer: of earlier
      * micro-batches, or whatever was there before. */
    method OutputResolveRow(i: int) returns (row: Option<nat>)
      ensures row.Some? <==> Resolves(i)
      ensures row.Some? ==> row.value == if i < 0 then nOutputs + i else outputIds[i]
      ensures Mapped() && 0 <= i ==> (row.Some? <==> i < |outputIds| && i in Final())
      ensures Mapped() && row.Some? ==> Final()[row.value] == if i < 0 then Final()[nOutputs + i] else i
      ensures Unmapped() && 0 <= i ==> row.None?
    {
      var j := -1;
      if i < 0 {
        j := nOutputs + i;
        if j < 0 {
          return None;
        }
      } else if i >= |outputIds| {
        return None;
      } else {
        j := outputIds[i];
      }
      if j < 0 {
        return None;
      }
      if j >= nOutputs {
        return None;
      }
      return Some(j);
    }

    /** The row asked for under batch index i: if the mapping is right, the one of token i. In any other
      * state it is still a row in use, of the token that order names if the rows are known at all. */
    method GetLogitsIth(i: int, ghost of: nat -> seq<T>) returns (row: Option<seq<T>>)
      requires Sane()
      modifies `outputSwaps, `order, logits
      ensures Sane() && outputSwaps == [] && (old(Unmapped()) ==> Unmapped())
      ensures row.Some? <==> Resolves(i)
      ensures row.Some? ==>
                row.value == Current()[if i < 0 then nOutputs + i else outputIds[i]]
      ensures Current() == Replay(old(Current()), old(outputSwaps), |old(outputSwaps)|)
      ensures old(outputSwaps) == [] ==> logits[..] == old(logits[..]) && order == old(order)
      ensures old(Holds(of)) ==> Holds(of)
      ensures old(Mapped()) ==> Mapped() && Final() == old(Final())
      ensures old(Mapped()) && 0 <= i ==> (row.Some? <==> i < nBatch && i in Final())
      ensures old(Mapped() && Holds(of)) && row.Some? ==> row.value == of(if i < 0 then Final()[nOutputs + i] else i)
    {
      OutputReorder(of);
      row := RowAt(i, of);
    }

    /** The row of index i once nothing is left to replay. */
    method RowAt(i: int, ghost of: nat -> seq<T>) returns (row: Option<seq<T>>)
      requires Sane() && outputSwaps == []
      ensures row.Some? <==> Resolves(i)
      ensures row.Some? ==> row.value == Current()[if i < 0 then nOutputs + i else outputIds[i]]
      ensures Mapped() && 0 <= i ==> (row.Some? <==> i < nBatch && i in Final())
      ensures Mapped() && Holds(of) && row.Some? ==> row.value == of(if i < 0 then Final()[nOutputs + i] else i)
    {
      var j := OutputResolveRow(i);
      if j.None? {
        return None;
      }
      if |order| == nOutputs {
        HeldRow(Current(), order, of, j.value);
      }
      var r := ReadRow(j.value);
      row := Some(r);
    }

    method ReadRow(j: nat) returns (row: seq<T>)
      requires j < nOutputs && nVocab * nOutputs <= logits.Length
      ensures row == Rows(logits[..], nVocab, nOutputs)[j]
    {
      RowStartsLayout(nVocab, nOutputs);
      LayoutFits(RowStarts(nVocab, nOutputs), nVocab, nVocab * nOutputs, logits.Length);
      var start := j * nVocab;
      assert start == RowStarts(nVocab, nOutputs)[j];
      row := logits[start..start + nVocab];
    }
  }
}
