/** The input batch and the checks `init` makes of it before anything is split. */
module Batches {
  import opened BatchTokens
  import opened Sequences

  /** What the memory module answers about a sequence: its first and last stored position, -1 for none. */
  datatype Memory = NoMemory | Memory(posMin: nat -> int, posMax: nat -> int)

  /** One position per token, or several (M-RoPE), and then whether the batch carries tokens or
    * embeddings. */
  datatype Kind = OnePosition | ManyPositions(tokens: bool)

  /** Nothing is missing between the first and the last. */
  ghost predicate Gapless(s: set<int>) {
    forall p: int, r: int, q: int | p in s && q in s && p <= r <= q :: r in s
  }

  /** The positions go on where the stored ones end: at the very next one, or for M-RoPE after them (an
    * embedding may repeat the last). */
  ghost predicate StartsRight(s: set<int>, stored: int, kind: Kind) {
    0 <= stored ==>
      match kind
      case OnePosition => stored + 1 in s && forall p: int | p in s :: stored < p
      case ManyPositions(tokens) => forall p: int | p in s :: if tokens then stored < p else stored <= p
  }

  ghost predicate Partial(a: SeqSet, c: SeqSet) {
    a * c != {} && !(a <= c) && !(c <= a)
  }

  /** Two sequences with the same first and last stored position. */
  ghost predicate SamePlace(memory: Memory, a: nat, c: nat)
    requires memory.Memory?
  {
    memory.posMin(a) == memory.posMin(c) && memory.posMax(a) == memory.posMax(c)
  }

  const MAX_SEQ: nat := 256

  /** The input batch: per token its sequence ids, its position and whether its output is wanted. */
  datatype Batch = Batch(seqIds: seq<seq<nat>>, pos: seq<int>, output: seq<bool>) {
    /** What `llama.h` asks of a batch: arrays of one size, and every token in some sequence. */
    ghost predicate WellFormed() {
      && |pos| == |seqIds| == |output|
      && forall i | 0 <= i < |seqIds| :: seqIds[i] != []
    }

    function Sets(): (sets: seq<SeqSet>)
      ensures |sets| == |seqIds|
      ensures forall i | 0 <= i < |seqIds| :: sets[i] == IdSet(seqIds[i])
    {
      seq(|seqIds|, i requires 0 <= i < |seqIds| => IdSet(seqIds[i]))
    }

    ghost predicate Coupled() {
      exists i :: 0 <= i < |seqIds| && |seqIds[i]| > 1
    }

    ghost predicate IdsBelow(nSeqMax: nat) {
      forall i, k | 0 <= i < |seqIds| && 0 <= k < |seqIds[i]| :: seqIds[i][k] < nSeqMax
    }

    /** Tokens that share a sequence come in non-decreasing position order, none below -1. */
    ghost predicate PositionsOrdered(n: nat)
      requires n <= |seqIds| == |pos|
    {
      && (forall i | 0 <= i < n && seqIds[i] != [] :: -1 <= pos[i])
      && forall i, j, x | 0 <= j <= i < n && x in seqIds[i] && x in seqIds[j] :: pos[j] <= pos[i]
    }

    /** The positions at which sequence x has one of the first n tokens. */
    ghost function PositionsBelow(x: nat, n: nat): set<int>
      requires n <= |seqIds| == |pos|
    {
      set i | 0 <= i < n && x in seqIds[i] :: pos[i]
    }

    ghost function PositionsOf(x: nat): set<int>
      requires |pos| == |seqIds|
    {
      PositionsBelow(x, |seqIds|)
    }

    /** Some token among the first n lists sequence a after its first sequence c. */
    ghost predicate CouplesBelow(a: nat, c: nat, n: nat)
      requires n <= |seqIds|
    {
      exists i, k :: 0 <= i < n && 0 < k < |seqIds[i]| && seqIds[i][k] == a && seqIds[i][0] == c
    }

    /** What a sequence already in memory and the kind of positions ask of the batch's positions of x. */
    ghost predicate SequenceFits(x: nat, memory: Memory, kind: Kind)
      requires |pos| == |seqIds|
    {
      PositionsOf(x) != {} ==>
        && (memory.Memory? ==> StartsRight(PositionsOf(x), memory.posMax(x), kind))
        && (kind.OnePosition? ==> Gapless(PositionsOf(x)))
    }

    ghost predicate PositionsFit(n: nat, memory: Memory, kind: Kind)
      requires |pos| == |seqIds|
    {
      forall x: nat | x < n :: SequenceFits(x, memory, kind)
    }

    /** Sequences that share a token stand at the same place in memory. */
    ghost predicate CoupledAgree(memory: Memory) {
      memory.Memory? ==>
        forall a: nat, c: nat | CouplesBelow(a, c, |seqIds|) :: SamePlace(memory, a, c)
    }

    /** What `init` accepts. */
    ghost predicate Accepted(maxSeqs: nat, memory: Memory, kind: Kind)
      requires WellFormed()
    {
      && maxSeqs <= MAX_SEQ && IdsBelow(maxSeqs)
      && PositionsFit(maxSeqs, memory, kind) && CoupledAgree(memory)
      && PositionsOrdered(|seqIds|)
    }

    /** Two tokens share a sequence, and neither token's set holds the other's. */
    ghost predicate PartialSubsets() {
      exists i, j :: 0 <= i < |seqIds| && 0 <= j < |seqIds| && Partial(IdSet(seqIds[i]), IdSet(seqIds[j]))
    }
  }

  function IdSet(ids: seq<nat>): SeqSet {
    set x | x in ids
  }

  function FirstIds(b: Batch): (r: seq<nat>)
    requires forall i | 0 <= i < |b.seqIds| :: b.seqIds[i] != []
    ensures |r| == |b.seqIds| && forall i | 0 <= i < |r| :: r[i] == b.seqIds[i][0]
  {
    seq(|b.seqIds|, i requires 0 <= i < |b.seqIds| => b.seqIds[i][0])
  }

  // ---- ids, outputs, coupling ----------------------------------------------------------

  method CheckIds(b: Batch, maxSeqs: nat) returns (ok: bool)
    ensures ok <==> b.IdsBelow(maxSeqs)
  {
    for i := 0 to |b.seqIds|
      invariant forall k, l | 0 <= k < i && 0 <= l < |b.seqIds[k]| :: b.seqIds[k][l] < maxSeqs
    {
      for s := 0 to |b.seqIds[i]|
        invariant forall k | 0 <= k < s :: b.seqIds[i][k] < maxSeqs
      {
        if b.seqIds[i][s] >= maxSeqs {
          return false;
        }
      }
    }
    return true;
  }

  method CountOutputs(output: seq<bool>) returns (n: nat)
    ensures n == |set i | 0 <= i < |output| && output[i]|
  {
    n := 0;
    for k := 0 to |output|
      invariant n == |set i | 0 <= i < k && output[i]|
    {
      ghost var below := set i | 0 <= i < k && output[i];
      ghost var upTo := set i | 0 <= i < k + 1 && output[i];
      assert upTo == if output[k] then below + {k} else below;
      if output[k] {
        n := n + 1;
      }
    }
  }

  lemma PositionsGrow(b: Batch, x: nat, i: nat)
    requires b.WellFormed() && i < |b.seqIds|
    ensures b.PositionsBelow(x, i + 1) == b.PositionsBelow(x, i) + if x in b.seqIds[i] then {b.pos[i]} else {}
  {
    var more: set<int> := if x in b.seqIds[i] then {b.pos[i]} else {};
    forall p: int | p in b.PositionsBelow(x, i + 1)
      ensures p in b.PositionsBelow(x, i) + more
    {
      var j :| 0 <= j < i + 1 && x in b.seqIds[j] && b.pos[j] == p;
    }
  }

  /** The positions of every sequence and the coupled pairs, over the first i tokens. */
  ghost predicate Collected(b: Batch, i: nat, seqPos: seq<set<int>>, seqCpl: set<(nat, nat)>)
    requires b.WellFormed() && i <= |b.seqIds|
  {
    && (forall x | 0 <= x < |seqPos| :: seqPos[x] == b.PositionsBelow(x, i))
    && (forall a: nat, c: nat :: (a, c) in seqCpl <==> b.CouplesBelow(a, c, i))
  }

  /** Which sequences share a token, and the positions of each. */
  method FindCoupled(b: Batch, maxSeqs: nat) returns (coupled: bool, seqPos: seq<set<int>>, seqCpl: set<(nat, nat)>)
    requires b.WellFormed() && b.IdsBelow(maxSeqs)
    ensures coupled <==> b.Coupled()
    ensures |seqPos| == maxSeqs && Collected(b, |b.seqIds|, seqPos, seqCpl)
  {
    coupled, seqPos, seqCpl := false, seq(maxSeqs, _ => {}), {};
    for i := 0 to |b.seqIds|
      invariant coupled <==> exists k :: 0 <= k < i && |b.seqIds[k]| > 1
      invariant |seqPos| == maxSeqs && Collected(b, i, seqPos, seqCpl)
    {
      if |b.seqIds[i]| > 1 {
        coupled := true;
      }
      seqPos, seqCpl := CollectToken(b, i, maxSeqs, seqPos, seqCpl);
    }
  }

  method CollectToken(b: Batch, i: nat, maxSeqs: nat, seqPos0: seq<set<int>>, seqCpl0: set<(nat, nat)>)
    returns (seqPos: seq<set<int>>, seqCpl: set<(nat, nat)>)
    requires b.WellFormed() && b.IdsBelow(maxSeqs) && i < |b.seqIds| && |seqPos0| == maxSeqs
    requires Collected(b, i, seqPos0, seqCpl0)
    ensures |seqPos| == maxSeqs && Collected(b, i + 1, seqPos, seqCpl)
  {
    var ids := b.seqIds[i];
    seqPos, seqCpl := seqPos0, seqCpl0;
    for s := 0 to |ids|
      invariant |seqPos| == maxSeqs
      invariant forall x | 0 <= x < maxSeqs ::
          seqPos[x] == seqPos0[x] + if x in ids[..s] then {b.pos[i]} else {}
      invariant forall a: nat, c: nat :: (a, c) in seqCpl <==>
          (a, c) in seqCpl0 || (c == ids[0] && exists k :: 0 < k < s && ids[k] == a)
    {
      var s1 := ids[s];
      seqPos := seqPos[s1 := seqPos[s1] + {b.pos[i]}];
      if s > 0 {
        seqCpl := seqCpl + {(s1, ids[0])};
      }
      assert ids[..s + 1] == ids[..s] + [s1];
    }
    assert ids[..|ids|] == ids;
    forall x | 0 <= x < maxSeqs ensures seqPos[x] == b.PositionsBelow(x, i + 1) {
      PositionsGrow(b, x, i);
    }
    forall a: nat, c: nat ensures (a, c) in seqCpl <==> b.CouplesBelow(a, c, i + 1) {
      CouplingGrows(b, i, a, c);
    }
  }

  lemma CouplingGrows(b: Batch, i: nat, a: nat, c: nat)
    requires b.WellFormed() && i < |b.seqIds|
    ensures b.CouplesBelow(a, c, i + 1) <==>
            b.CouplesBelow(a, c, i) || (c == b.seqIds[i][0] && exists k :: 0 < k < |b.seqIds[i]| && b.seqIds[i][k] == a)
  {
  }

  // ---- positions -----------------------------------------------------------------------

  function Interval(lo: int, hi: int): (s: set<int>)
    requires lo <= hi + 1
    ensures |s| == hi - lo + 1 && forall r: int :: r in s <==> lo <= r <= hi
    decreases hi - lo + 1
  {
    if lo == hi + 1 then {} else Interval(lo, hi - 1) + {hi}
  }

  /** Counting the positions between the first and the last finds the gaps. */
  lemma CountFindsGaps(s: set<int>, lo: int, hi: int)
    requires lo in s && hi in s && forall p: int | p in s :: lo <= p <= hi
    ensures hi - lo + 1 <= |s| <==> Gapless(s)
  {
    SmallerSet(s, Interval(lo, hi));
    if Gapless(s) {
      forall r: int | r in Interval(lo, hi) ensures r in s {
      }
      assert s == Interval(lo, hi);
    }
  }

  /** With one position per token, a sequence goes on right exactly if its stored positions lo to stored and the
    * batch's make one run, without a gap and without going back. */
  lemma RunContinues(s: set<int>, lo: int, stored: int)
    requires s != {} && 0 <= lo <= stored
    ensures StartsRight(s, stored, OnePosition) && Gapless(s)
            <==> (forall p: int | p in s :: stored < p) && Gapless(Interval(lo, stored) + s)
  {
    var all := Interval(lo, stored) + s;
    if StartsRight(s, stored, OnePosition) && Gapless(s) {
      forall p: int, r: int, q: int | p in all && q in all && p <= r <= q ensures r in all {
        assert stored + 1 in s;
      }
    }
    if (forall p: int | p in s :: stored < p) && Gapless(all) {
      SomeElement(s);
      var q: int :| q in s;
      assert stored in all && stored + 1 in all;
      forall p: int, r: int, q: int | p in s && q in s && p <= r <= q ensures r in s {
        assert p in all && q in all && r in all;
      }
    }
  }

  /** With several positions, tokens take none that is stored, and embeddings at most the last one. */
  lemma JumpContinues(s: set<int>, lo: int, stored: int, tokens: bool)
    requires 0 <= lo <= stored && forall p: int | p in s :: lo <= p
    ensures StartsRight(s, stored, ManyPositions(tokens))
            <==> s * Interval(lo, stored) <= if tokens then {} else {stored}
  {
    var over, allowed: set<int> := s * Interval(lo, stored), if tokens then {} else {stored};
    if StartsRight(s, stored, ManyPositions(tokens)) {
      forall p: int | p in over ensures p in allowed {
        assert p in s;
      }
    }
    if over <= allowed {
      forall p: int | p in s ensures if tokens then stored < p else stored <= p {
        assert p <= stored ==> p in over;
      }
    }
  }

  lemma SomeElement(s: set<int>)
    requires s != {}
    ensures exists p: int :: p in s
  {
    if forall p: int :: p !in s {
      SmallerSet(s, {});
    }
  }

  /** The first and the last element of an ordered set. */
  method Extremes(s: set<int>) returns (lo: int, hi: int)
    requires s != {}
    ensures lo in s && hi in s && forall p: int | p in s :: lo <= p <= hi
  {
    SomeElement(s);
    var x: int :| x in s;
    lo, hi := x, x;
    var rest := s - {x};
    while rest != {}
      invariant rest <= s && lo in s && hi in s && lo <= hi
      invariant forall p: int :: p in s ==> p in rest || lo <= p <= hi
      decreases |rest|
    {
      SomeElement(rest);
      var p: int :| p in rest;
      if p < lo {
        lo := p;
      }
      if hi < p {
        hi := p;
      }
      rest := rest - {p};
    }
  }

  /** One sequence: it must go on from what is stored, and without a gap if there is one position per
    * token. */
  method CheckSequence(s: set<int>, stored: int, kind: Kind) returns (ok: bool)
    requires s != {}
    ensures ok <==> StartsRight(s, stored, kind) && (kind.OnePosition? ==> Gapless(s))
  {
    var lo, hi := Extremes(s);
    CountFindsGaps(s, lo, hi);
    match kind
    case ManyPositions(tokens) =>
      ok := !(stored >= 0 && if tokens then stored >= lo else stored > lo);
    case OnePosition =>
      if stored >= 0 && lo != stored + 1 {
        return false;
      }
      ok := !(hi - lo + 1 > |s|);
  }

  method CheckPositions(b: Batch, maxSeqs: nat, seqPos: seq<set<int>>, memory: Memory, kind: Kind) returns (ok: bool)
    requires b.WellFormed() && |seqPos| == maxSeqs
    requires forall x | 0 <= x < maxSeqs :: seqPos[x] == b.PositionsOf(x)
    ensures ok <==> b.PositionsFit(maxSeqs, memory, kind)
  {
    for s := 0 to maxSeqs
      invariant forall x: nat | x < s :: b.SequenceFits(x, memory, kind)
    {
      if seqPos[s] != {} {
        var p0 := if memory.Memory? then memory.posMax(s) else -1;
        ok := CheckSequence(seqPos[s], p0, kind);
        assert b.SequenceFits(s, memory, kind) <==> ok;
        if !ok {
          return;
        }
      }
    }
    ok := true;
  }

  method CheckCoupled(b: Batch, maxSeqs: nat, seqCpl: set<(nat, nat)>, memory: Memory) returns (ok: bool)
    requires b.WellFormed() && b.IdsBelow(maxSeqs)
    requires forall a: nat, c: nat :: (a, c) in seqCpl <==> b.CouplesBelow(a, c, |b.seqIds|)
    ensures ok <==> b.CoupledAgree(memory)
  {
    if memory.NoMemory? {
      return true;
    }
    for s0 := 0 to maxSeqs
      invariant forall a: nat, c: nat | a < s0 && (a, c) in seqCpl :: SamePlace(memory, a, c)
    {
      for s1 := 0 to maxSeqs
        invariant forall c | c < s1 && (s0, c) in seqCpl :: SamePlace(memory, s0, c)
      {
        if (s0, s1) in seqCpl {
          if memory.posMin(s0) != memory.posMin(s1) || memory.posMax(s0) != memory.posMax(s1) {
            assert b.CouplesBelow(s0, s1, |b.seqIds|);
            return false;
          }
        }
      }
    }
    forall a: nat, c: nat | b.CouplesBelow(a, c, |b.seqIds|)
      ensures SamePlace(memory, a, c)
    {
      assert (a, c) in seqCpl;
    }
    ok := true;
  }

  // ---- order ---------------------------------------------------------------------------

  /** The two consistency checks of `init`: partial sub-sets and decreasing positions. */
  method CheckSequences(b: Batch, maxSeqs: nat) returns (ok: bool)
    requires b.WellFormed() && b.IdsBelow(maxSeqs)
    ensures ok <==> b.PositionsOrdered(|b.seqIds|)
  {
    var curSeqSet := seq(maxSeqs, _ => UpTo(maxSeqs));
    var curSeqPos := seq(maxSeqs, _ => -1);
    for i := 0 to |b.seqIds|
      invariant SetsHold(curSeqSet, maxSeqs) && |curSeqPos| == maxSeqs
      invariant LastPositions(b, i, curSeqPos)
      invariant b.PositionsOrdered(i)
    {
      ok, curSeqSet, curSeqPos := CheckToken(b, maxSeqs, i, curSeqSet, curSeqPos);
      if !ok {
        return;
      }
    }
    ok := true;
  }

  /** The running intersection of each id's sequence sets contains at least the id itself. */
  ghost predicate SetsHold(cur: seq<SeqSet>, maxSeqs: nat) {
    |cur| == maxSeqs && forall x | 0 <= x < maxSeqs :: x in cur[x]
  }

  /** The checks of one token, id by id. */
  method CheckToken(b: Batch, maxSeqs: nat, i: nat, sets: seq<SeqSet>, positions: seq<int>)
    returns (ok: bool, curSeqSet: seq<SeqSet>, curSeqPos: seq<int>)
    requires b.WellFormed() && b.IdsBelow(maxSeqs) && i < |b.seqIds|
    requires SetsHold(sets, maxSeqs) && |positions| == maxSeqs
    requires LastPositions(b, i, positions) && b.PositionsOrdered(i)
    ensures ok ==> SetsHold(curSeqSet, maxSeqs) && |curSeqPos| == maxSeqs
    ensures ok ==> LastPositions(b, i + 1, curSeqPos) && b.PositionsOrdered(i + 1)
    ensures !ok ==> !b.PositionsOrdered(|b.seqIds|)
  {
    curSeqSet, curSeqPos := sets, positions;
    for s := 0 to |b.seqIds[i]|
      invariant SetsHold(curSeqSet, maxSeqs) && |curSeqPos| == maxSeqs
      invariant forall k | 0 <= k < s :: positions[b.seqIds[i][k]] <= b.pos[i]
      invariant forall x | 0 <= x < maxSeqs ::
          curSeqPos[x] == if x in b.seqIds[i][..s] then b.pos[i] else positions[x]
    {
      var x := b.seqIds[i][s];
      curSeqSet := curSeqSet[x := curSeqSet[x] * IdSet(b.seqIds[i])];
      assert x in curSeqSet[x];
      if curSeqSet[x] == {} {
        return false, curSeqSet, curSeqPos;
      }
      if b.pos[i] < curSeqPos[x] {
        RejectedPosition(b, i, positions, x);
        return false, curSeqSet, curSeqPos;
      }
      curSeqPos := curSeqPos[x := b.pos[i]];
    }
    AcceptedPosition(b, i, positions, curSeqPos);
    ok := true;
  }

  /** per id the position of its last token below i, or -1 */
  ghost predicate LastPositions(b: Batch, i: nat, cur: seq<int>)
    requires b.WellFormed() && i <= |b.seqIds|
  {
    && (forall x | 0 <= x < |cur| :: -1 <= cur[x])
    && (forall j, x | 0 <= j < i && x in b.seqIds[j] && x < |cur| :: b.pos[j] <= cur[x])
    && forall x | 0 <= x < |cur| && cur[x] != -1 :: exists j :: 0 <= j < i && x in b.seqIds[j] && b.pos[j] == cur[x]
  }

  lemma RejectedPosition(b: Batch, i: nat, cur: seq<int>, x: nat)
    requires b.WellFormed() && i < |b.seqIds| && LastPositions(b, i, cur)
    requires x in b.seqIds[i] && x < |cur| && b.pos[i] < cur[x]
    ensures !b.PositionsOrdered(|b.seqIds|)
  {
    if cur[x] == -1 {
      assert b.pos[i] < -1;
    } else {
      var j :| 0 <= j < i && x in b.seqIds[j] && b.pos[j] == cur[x];
    }
  }

  lemma AcceptedPosition(b: Batch, i: nat, before: seq<int>, after: seq<int>)
    requires b.WellFormed() && i < |b.seqIds| && LastPositions(b, i, before) && b.PositionsOrdered(i)
    requires |before| == |after| && b.IdsBelow(|before|)
    requires forall k | 0 <= k < |b.seqIds[i]| :: before[b.seqIds[i][k]] <= b.pos[i]
    requires forall x | 0 <= x < |after| :: after[x] == if x in b.seqIds[i] then b.pos[i] else before[x]
    ensures LastPositions(b, i + 1, after) && b.PositionsOrdered(i + 1)
  {
    assert before[b.seqIds[i][0]] <= b.pos[i];
    forall x | x in b.seqIds[i]
      ensures x < |before| && before[x] <= b.pos[i]
    {
      var k :| 0 <= k < |b.seqIds[i]| && b.seqIds[i][k] == x;
    }
    StillOrdered(b, i, before);
    LastUpdated(b, i, before, after);
  }

  lemma StillOrdered(b: Batch, i: nat, before: seq<int>)
    requires b.WellFormed() && i < |b.seqIds| && LastPositions(b, i, before) && b.PositionsOrdered(i)
    requires -1 <= b.pos[i] && forall x | x in b.seqIds[i] :: x < |before| && before[x] <= b.pos[i]
    ensures b.PositionsOrdered(i + 1)
  {
  }

  lemma LastUpdated(b: Batch, i: nat, before: seq<int>, after: seq<int>)
    requires b.WellFormed() && i < |b.seqIds| && LastPositions(b, i, before) && |before| == |after|
    requires -1 <= b.pos[i] && forall x | x in b.seqIds[i] :: x < |before| && before[x] <= b.pos[i]
    requires forall x | 0 <= x < |after| :: after[x] == if x in b.seqIds[i] then b.pos[i] else before[x]
    ensures LastPositions(b, i + 1, after)
  {
    forall x | 0 <= x < |after| && after[x] != -1
      ensures exists j :: 0 <= j < i + 1 && x in b.seqIds[j] && b.pos[j] == after[x]
    {
      if x in b.seqIds[i] {
        assert b.pos[i] == after[x];
      } else {
        var j :| 0 <= j < i && x in b.seqIds[j] && b.pos[j] == before[x];
      }
    }
  }

  // ---- partial sub-sets ----------------------------------------------------------------

  /** Three sequences that a batch may couple: all new, or all with the same positions in memory. */
  ghost predicate ThreeTogether(x: nat, y: nat, z: nat, maxSeqs: nat, memory: Memory) {
    && x < maxSeqs && y < maxSeqs && z < maxSeqs && x != y && y != z && x != z
    && (memory.Memory? ==> SamePlace(memory, x, y) && SamePlace(memory, y, z))
  }

  /** The position at which a batch goes on with sequence x. */
  ghost function NextPosition(x: nat, memory: Memory): int {
    if memory.Memory? && 0 <= memory.posMax(x) then memory.posMax(x) + 1 else 0
  }

  /** A batch of the very shape the comment in `init` draws as invalid. */
  ghost function PartialExample(x: nat, y: nat, z: nat, memory: Memory): Batch {
    var p := NextPosition(x, memory);
    Batch([[x, y, z], [x, y], [y, z]], [p, p, p], [false, false, true])
  }

  lemma PartialExampleIsPartial(x: nat, y: nat, z: nat, memory: Memory)
    requires x != y && y != z && x != z
    ensures PartialExample(x, y, z, memory).PartialSubsets()
  {
    var b := PartialExample(x, y, z, memory);
    var a, c := IdSet(b.seqIds[1]), IdSet(b.seqIds[2]);
    assert a == {x, y} && c == {y, z};
    assert y in a * c && x in a && x !in c && z in c && z !in a;
    assert Partial(a, c);
  }

  lemma PartialExampleAccepted(x: nat, y: nat, z: nat, maxSeqs: nat, memory: Memory, kind: Kind)
    requires maxSeqs <= MAX_SEQ && ThreeTogether(x, y, z, maxSeqs, memory)
    ensures var b := PartialExample(x, y, z, memory);
            b.WellFormed() && b.PartialSubsets() && b.Accepted(maxSeqs, memory, kind)
  {
    var b, p := PartialExample(x, y, z, memory), NextPosition(x, memory);
    PartialExampleIsPartial(x, y, z, memory);
    forall s: nat | s < maxSeqs ensures b.SequenceFits(s, memory, kind) {
      PartialExampleFits(x, y, z, s, maxSeqs, memory, kind);
    }
    forall a: nat, c: nat | memory.Memory? && b.CouplesBelow(a, c, 3) ensures SamePlace(memory, a, c) {
      var i, k :| 0 <= i < 3 && 0 < k < |b.seqIds[i]| && b.seqIds[i][k] == a && b.seqIds[i][0] == c;
      assert c == x || (c == y && a == z);
    }
  }

  lemma PartialExampleFits(x: nat, y: nat, z: nat, s: nat, maxSeqs: nat, memory: Memory, kind: Kind)
    requires ThreeTogether(x, y, z, maxSeqs, memory)
    ensures PartialExample(x, y, z, memory).SequenceFits(s, memory, kind)
  {
    var b, p := PartialExample(x, y, z, memory), NextPosition(x, memory);
    if b.PositionsOf(s) != {} {
      forall q: int ensures q in b.PositionsOf(s) <==> q == p {
        SomeElement(b.PositionsOf(s));
      }
      assert s == x || s == y || s == z;
      assert memory.Memory? ==> memory.posMax(s) == memory.posMax(x);
    }
  }

  /** All sequences of one token stand at one place. */
  lemma TokenStandsTogether(b: Batch, memory: Memory, i: nat, x: nat, y: nat)
    requires b.WellFormed() && b.CoupledAgree(memory) && memory.Memory? && i < |b.seqIds|
    requires x in b.seqIds[i] && y in b.seqIds[i]
    ensures SamePlace(memory, x, y)
  {
    var first := b.seqIds[i][0];
    forall u | u in b.seqIds[i] ensures SamePlace(memory, u, first) {
      var k: nat :| k < |b.seqIds[i]| && b.seqIds[i][k] == u;
      assert k > 0 ==> b.CouplesBelow(u, first, |b.seqIds|);
    }
  }

  lemma PartialNeedsThree(b: Batch, maxSeqs: nat, memory: Memory, kind: Kind)
    requires b.WellFormed() && b.Accepted(maxSeqs, memory, kind) && b.PartialSubsets()
    ensures exists x: nat, y: nat, z: nat :: ThreeTogether(x, y, z, maxSeqs, memory)
  {
    var i: nat, j: nat :| i < |b.seqIds| && j < |b.seqIds| && Partial(IdSet(b.seqIds[i]), IdSet(b.seqIds[j]));
    var a, c := IdSet(b.seqIds[i]), IdSet(b.seqIds[j]);
    var y :| y in a * c;
    var x :| x in a && x !in c;
    var z :| z in c && z !in a;
    assert x < maxSeqs && y < maxSeqs && z < maxSeqs;
    if memory.Memory? {
      TokenStandsTogether(b, memory, i, x, y);
      TokenStandsTogether(b, memory, j, y, z);
    }
    assert ThreeTogether(x, y, z, maxSeqs, memory);
  }

  /** No batch with partial sub-sets gets past `init` exactly if no batch gets past it at all, or no three
    * sequences could share a token. The test meant to find such batches never fires. */
  lemma PartialSubsetsPass(maxSeqs: nat, memory: Memory, kind: Kind)
    ensures (forall b: Batch | b.WellFormed() && b.Accepted(maxSeqs, memory, kind) :: !b.PartialSubsets())
            <==> MAX_SEQ < maxSeqs || !exists x: nat, y: nat, z: nat :: ThreeTogether(x, y, z, maxSeqs, memory)
  {
    if maxSeqs <= MAX_SEQ && exists x: nat, y: nat, z: nat :: ThreeTogether(x, y, z, maxSeqs, memory) {
      var x: nat, y: nat, z: nat :| ThreeTogether(x, y, z, maxSeqs, memory);
      PartialExampleAccepted(x, y, z, maxSeqs, memory, kind);
    } else {
      forall b: Batch | b.WellFormed() && b.Accepted(maxSeqs, memory, kind) ensures !b.PartialSubsets() {
        if b.PartialSubsets() {
          PartialNeedsThree(b, maxSeqs, memory, kind);
        }
      }
    }
  }

  /** In particular, while nothing is stored, whenever three sequences are allowed. */
  lemma PartialSubsetsPassAtStart(maxSeqs: nat, memory: Memory, kind: Kind)
    requires memory.Memory? ==> forall x: nat :: memory.posMin(x) == memory.posMax(x) == -1
    ensures (forall b: Batch | b.WellFormed() && b.Accepted(maxSeqs, memory, kind) :: !b.PartialSubsets())
            <==> maxSeqs < 3 || MAX_SEQ < maxSeqs
  {
    PartialSubsetsPass(maxSeqs, memory, kind);
    if 3 <= maxSeqs {
      assert ThreeTogether(0, 1, 2, maxSeqs, memory);
    }
  }
}
