/** What one equal split hands out, in closed form: which sequence sets, and how many
  * tokens of each. The imperative split (BatchAllocr.SplitEqual), which uses tokens one
  * round at a time and gives some of them back, is proved to produce exactly this.
  */
module SplitPlan {
  import opened BatchTokens
  import opened Sequences

  /** May token i open a group next to the groups opened so far? Its set must overlap none of
    * theirs, and in sequential mode its first sequence id must follow the last one. */
  predicate Admissible(sets: seq<SeqSet>, first: seq<nat>, leaders: seq<nat>, i: nat, sequential: bool)
    requires |first| == |sets| && i < |sets|
    requires forall k | 0 <= k < |leaders| :: leaders[k] < |sets|
  {
    && (forall k | 0 <= k < |leaders| :: sets[leaders[k]] !! sets[i])
    && (sequential && leaders != [] ==> first[i] == first[leaders[|leaders| - 1]] + 1)
  }

  /** The scan over the batch that picks the tokens opening a group. */
  function LeadersFrom(sets: seq<SeqSet>, first: seq<nat>, used: seq<bool>, nUbatch: nat, sequential: bool, i: nat,
                       acc: seq<nat>)
    : seq<nat>
    requires |used| == |first| == |sets| && i <= |sets|
    requires forall k | 0 <= k < |acc| :: acc[k] < i
    decreases |used| - i
  {
    if i == |used| then acc
    else if used[i] || !Admissible(sets, first, acc, i, sequential) then
      LeadersFrom(sets, first, used, nUbatch, sequential, i + 1, acc)
    else if |acc| + 1 > nUbatch then acc + [i]
    else LeadersFrom(sets, first, used, nUbatch, sequential, i + 1, acc + [i])
  }

  function Leaders(sets: seq<SeqSet>, first: seq<nat>, used: seq<bool>, nUbatch: nat, sequential: bool): seq<nat>
    requires |used| == |first| == |sets|
  {
    LeadersFrom(sets, first, used, nUbatch, sequential, 0, [])
  }

  /** Unused tokens with pairwise disjoint sets, in batch order, with consecutive first ids
    * when sequential. */
  ghost predicate GoodLeaders(sets: seq<SeqSet>, first: seq<nat>, used: seq<bool>, sequential: bool, leaders: seq<nat>)
    requires |used| == |first| == |sets|
  {
    && (forall k | 0 <= k < |leaders| :: leaders[k] < |used| && !used[leaders[k]])
    && (forall k, l | 0 <= k < l < |leaders| :: leaders[k] < leaders[l])
    && (forall k, l | 0 <= k < l < |leaders| :: sets[leaders[k]] !! sets[leaders[l]])
    && (sequential ==> forall k, l | 0 <= k < |leaders| && l == k + 1 < |leaders| ::
        first[leaders[l]] == first[leaders[k]] + 1)
  }

  lemma GoodLeadersExtend(sets: seq<SeqSet>, first: seq<nat>, used: seq<bool>, sequential: bool, acc: seq<nat>, i: nat)
    requires |used| == |first| == |sets| && i < |sets| && !used[i]
    requires forall k | 0 <= k < |acc| :: acc[k] < i
    requires GoodLeaders(sets, first, used, sequential, acc) && Admissible(sets, first, acc, i, sequential)
    ensures GoodLeaders(sets, first, used, sequential, acc + [i])
  {
  }

  lemma {:induction false} LeadersFromGood(sets: seq<SeqSet>, first: seq<nat>, used: seq<bool>, nUbatch: nat,
                                           sequential: bool, i: nat, acc: seq<nat>)
    requires |used| == |first| == |sets| && i <= |used|
    requires forall k | 0 <= k < |acc| :: acc[k] < i
    requires GoodLeaders(sets, first, used, sequential, acc)
    requires |acc| <= nUbatch
    ensures var r := LeadersFrom(sets, first, used, nUbatch, sequential, i, acc);
            GoodLeaders(sets, first, used, sequential, r) && acc <= r && |r| <= nUbatch + 1
    decreases |used| - i
  {
    var r := LeadersFrom(sets, first, used, nUbatch, sequential, i, acc);
    if i == |used| {
      assert r == acc;
    } else if used[i] || !Admissible(sets, first, acc, i, sequential) {
      assert r == LeadersFrom(sets, first, used, nUbatch, sequential, i + 1, acc);
      LeadersFromGood(sets, first, used, nUbatch, sequential, i + 1, acc);
    } else {
      assert GoodLeaders(sets, first, used, sequential, acc + [i]) by {
        GoodLeadersExtend(sets, first, used, sequential, acc, i);
      }
      if |acc| + 1 <= nUbatch {
        assert r == LeadersFrom(sets, first, used, nUbatch, sequential, i + 1, acc + [i]);
        LeadersFromGood(sets, first, used, nUbatch, sequential, i + 1, acc + [i]);
      } else {
        assert r == acc + [i];
      }
    }
  }

  /** The sets an equal split chooses are pairwise disjoint sets of unused tokens, with consecutive
    * first ids when sequential, and at most one more of them than n_ubatch. */
  lemma LeadersGood(sets: seq<SeqSet>, first: seq<nat>, used: seq<bool>, nUbatch: nat, sequential: bool)
    requires |used| == |first| == |sets|
    ensures var r := Leaders(sets, first, used, nUbatch, sequential);
            GoodLeaders(sets, first, used, sequential, r) && |r| <= nUbatch + 1
  {
    LeadersFromGood(sets, first, used, nUbatch, sequential, 0, []);
  }

  lemma {:induction false} LeadersFromFirst(sets: seq<SeqSet>, first: seq<nat>, used: seq<bool>, nUbatch: nat,
                                            sequential: bool, i: nat, m: nat)
    requires |used| == |first| == |sets|
    requires i <= m < |used| && !used[m] && forall k | i <= k < m :: used[k]
    ensures var r := LeadersFrom(sets, first, used, nUbatch, sequential, i, []); r != [] && r[0] == m
    decreases m - i
  {
    if i < m {
      LeadersFromFirst(sets, first, used, nUbatch, sequential, i + 1, m);
    } else {
      assert [] + [i] == [i];
      if 1 <= nUbatch {
        LeadersFromGood(sets, first, used, nUbatch, sequential, i + 1, [i]);
      }
    }
  }

  lemma {:induction false} LeadersFromNone(sets: seq<SeqSet>, first: seq<nat>, used: seq<bool>, nUbatch: nat,
                                           sequential: bool, i: nat)
    requires |used| == |first| == |sets| && i <= |used|
    requires forall k | i <= k < |used| :: used[k]
    ensures LeadersFrom(sets, first, used, nUbatch, sequential, i, []) == []
    decreases |used| - i
  {
    if i < |used| {
      LeadersFromNone(sets, first, used, nUbatch, sequential, i + 1);
    }
  }

  /** The first unused token always leads, so a split serves something exactly when a token is
    * unused. */
  lemma LeadersProgress(sets: seq<SeqSet>, first: seq<nat>, used: seq<bool>, nUbatch: nat, sequential: bool)
    requires |used| == |first| == |sets|
    ensures Leaders(sets, first, used, nUbatch, sequential) != [] <==> exists i :: 0 <= i < |used| && !used[i]
  {
    if i :| 0 <= i < |used| && !used[i] {
      var m := 0;
      while used[m]
        invariant m <= i && forall k | 0 <= k < m :: used[k]
        decreases i - m
      {
        m := m + 1;
      }
      LeadersFromFirst(sets, first, used, nUbatch, sequential, 0, m);
    } else {
      LeadersFromNone(sets, first, used, nUbatch, sequential, 0);
    }
  }

  /** Token m's set is one of the chosen ones or overlaps one of them. */
  ghost predicate Covered(sets: seq<SeqSet>, leaders: seq<nat>, m: nat)
    requires m < |sets|
  {
    exists k :: 0 <= k < |leaders| && leaders[k] < |sets| && (leaders[k] == m || !(sets[leaders[k]] !! sets[m]))
  }

  lemma {:induction false} LeadersFromMaximal(sets: seq<SeqSet>, first: seq<nat>, used: seq<bool>, nUbatch: nat,
                                              i: nat, acc: seq<nat>, m: nat)
    requires |used| == |first| == |sets| && i <= |used|
    requires forall k | 0 <= k < |acc| :: acc[k] < i
    requires |acc| <= nUbatch && GoodLeaders(sets, first, used, false, acc)
    requires m < |used| && !used[m] && (i <= m || Covered(sets, acc, m))
    ensures var r := LeadersFrom(sets, first, used, nUbatch, false, i, acc);
            |r| <= nUbatch ==> Covered(sets, r, m)
    decreases |used| - i
  {
    if i == |used| {
    } else if used[i] || !Admissible(sets, first, acc, i, false) {
      LeadersFromMaximal(sets, first, used, nUbatch, i + 1, acc, m);
    } else {
      GoodLeadersExtend(sets, first, used, false, acc, i);
      if |acc| + 1 <= nUbatch {
        assert m == i ==> (acc + [i])[|acc|] == m;
        assert Covered(sets, acc, m) ==> Covered(sets, acc + [i], m) by {
          if k :| 0 <= k < |acc| && acc[k] < |sets| && (acc[k] == m || !(sets[acc[k]] !! sets[m])) {
            assert (acc + [i])[k] == acc[k];
          }
        }
        LeadersFromMaximal(sets, first, used, nUbatch, i + 1, acc + [i], m);
      }
    }
  }

  /** The scan leaves a free set out only because of the size cut-off: with at most n_ubatch sets
    * chosen (and no sequential rule), every unused token's set meets a chosen one. */
  lemma LeadersMaximal(sets: seq<SeqSet>, first: seq<nat>, used: seq<bool>, nUbatch: nat, m: nat)
    requires |used| == |first| == |sets| && m < |used| && !used[m]
    ensures var r := Leaders(sets, first, used, nUbatch, false);
            |r| <= nUbatch ==> Covered(sets, r, m)
  {
    LeadersFromMaximal(sets, first, used, nUbatch, 0, [], m);
  }

  function SetsOf(sets: seq<SeqSet>, leaders: seq<nat>): (r: seq<SeqSet>)
    requires forall k | 0 <= k < |leaders| :: leaders[k] < |sets|
    ensures |r| == |leaders| && forall k | 0 <= k < |r| :: r[k] == sets[leaders[k]]
  {
    seq(|leaders|, k requires 0 <= k < |leaders| => sets[leaders[k]])
  }

  // ---- how many tokens each chosen set contributes ----------------------------------

  ghost function MinRemainingTo(sets: seq<SeqSet>, head: Heads, chosen: seq<SeqSet>, n: nat): int
    requires 0 < n <= |chosen|
  {
    var r := Remaining(sets, head, chosen[n - 1]);
    if n == 1 then r
    else
      var m := MinRemainingTo(sets, head, chosen, n - 1);
      if r < m then r else m
  }

  /** The shortest remaining list among the chosen sets. */
  ghost function MinRemaining(sets: seq<SeqSet>, head: Heads, chosen: seq<SeqSet>): int
    requires chosen != []
  {
    MinRemainingTo(sets, head, chosen, |chosen|)
  }

  lemma {:induction false} MinRemainingToIsMin(sets: seq<SeqSet>, head: Heads, chosen: seq<SeqSet>, n: nat)
    requires 0 < n <= |chosen|
    ensures forall k | 0 <= k < n :: MinRemainingTo(sets, head, chosen, n) <= Remaining(sets, head, chosen[k])
    ensures exists k :: 0 <= k < n && MinRemainingTo(sets, head, chosen, n) == Remaining(sets, head, chosen[k])
  {
    if n > 1 {
      MinRemainingToIsMin(sets, head, chosen, n - 1);
    }
  }

  lemma MinRemainingIsMin(sets: seq<SeqSet>, head: Heads, chosen: seq<SeqSet>)
    requires chosen != []
    ensures forall k | 0 <= k < |chosen| :: MinRemaining(sets, head, chosen) <= Remaining(sets, head, chosen[k])
    ensures exists k :: 0 <= k < |chosen| && MinRemaining(sets, head, chosen) == Remaining(sets, head, chosen[k])
  {
    MinRemainingToIsMin(sets, head, chosen, |chosen|);
  }

  /** Rounds of the lock-step loop: as many as fit in n_ubatch, at least one, no more than the
    * shortest list allows. */
  ghost function Rounds(sets: seq<SeqSet>, head: Heads, chosen: seq<SeqSet>, nUbatch: nat): int
    requires chosen != []
  {
    var cap := if nUbatch < |chosen| then 1 else nUbatch / |chosen|;
    var m := MinRemaining(sets, head, chosen);
    if m < cap then m else cap
  }

  /** A set may be cut after len tokens if it is then finished or keeps a full tail. */
  ghost predicate TailKept(sets: seq<SeqSet>, head: Heads, s: SeqSet, len: int, nKeepTail: nat) {
    var left := Remaining(sets, head, s) - len;
    left == 0 || nKeepTail <= left
  }

  ghost function KeepCountFrom(sets: seq<SeqSet>, head: Heads, chosen: seq<SeqSet>, len: int, nKeepTail: nat,
                               k: nat): (n: nat)
    requires k <= |chosen|
    ensures k <= n <= |chosen|
    ensures forall j | k <= j < n :: TailKept(sets, head, chosen[j], len, nKeepTail)
    ensures n < |chosen| ==> !TailKept(sets, head, chosen[n], len, nKeepTail)
    decreases |chosen| - k
  {
    if k == |chosen| || !TailKept(sets, head, chosen[k], len, nKeepTail) then k
    else KeepCountFrom(sets, head, chosen, len, nKeepTail, k + 1)
  }

  /** How many sets, from the first on, may be cut after len tokens. */
  ghost function KeepCount(sets: seq<SeqSet>, head: Heads, chosen: seq<SeqSet>, len: int, nKeepTail: nat): nat {
    KeepCountFrom(sets, head, chosen, len, nKeepTail, 0)
  }

  /** The sets served by one equal split and the common number of tokens each gets. */
  datatype Plan = Plan(sets: seq<SeqSet>, len: nat)

  ghost function PlanFor(sets: seq<SeqSet>, head: Heads, chosen: seq<SeqSet>, nUbatch: nat, nKeepTail: nat): Plan
    requires chosen != []
    requires forall k | 0 <= k < |chosen| :: 0 < Remaining(sets, head, chosen[k])
  {
    MinRemainingIsMin(sets, head, chosen);
    var len := Rounds(sets, head, chosen, nUbatch);
    if nKeepTail == 0 then Plan(chosen, len)
    else
      var n := KeepCount(sets, head, chosen, len, nKeepTail);
      if n > 0 then Plan(chosen[..n], len)
      else
        var r := Remaining(sets, head, chosen[0]);
        Plan(chosen[..1], if r <= nUbatch then r else if nKeepTail <= r then r - nKeepTail else 0)
  }

  /** Every served set still has len tokens to give. */
  ghost predicate Fits(sets: seq<SeqSet>, head: Heads, p: Plan) {
    forall k | 0 <= k < |p.sets| :: p.len <= Remaining(sets, head, p.sets[k])
  }

  ghost function Group(sets: seq<SeqSet>, head: Heads, s: SeqSet, len: nat): (g: seq<nat>)
    requires len <= Remaining(sets, head, s)
    ensures |g| == len
  {
    Members(sets, s)[At(head, s)..At(head, s) + len]
  }

  /** The tokens of the first n sets of a plan: per set its next len tokens, set after set. */
  ghost function PlanIdxsTo(sets: seq<SeqSet>, head: Heads, p: Plan, n: nat): seq<nat>
    requires Fits(sets, head, p) && n <= |p.sets|
  {
    if n == 0 then [] else PlanIdxsTo(sets, head, p, n - 1) + Group(sets, head, p.sets[n - 1], p.len)
  }

  /** The tokens a plan emits. */
  ghost function PlanIdxs(sets: seq<SeqSet>, head: Heads, p: Plan): seq<nat>
    requires Fits(sets, head, p)
  {
    PlanIdxsTo(sets, head, p, |p.sets|)
  }

  ghost function AdvanceTo(head: Heads, p: Plan, n: nat): Heads
    requires n <= |p.sets|
  {
    if n == 0 then head else AdvanceTo(head, p, n - 1)[p.sets[n - 1] := At(head, p.sets[n - 1]) + p.len]
  }

  /** The heads after a plan. */
  ghost function Advance(head: Heads, p: Plan): Heads {
    AdvanceTo(head, p, |p.sets|)
  }

  // ---- what every plan guarantees ----------------------------------------------------

  ghost predicate PlanOk(sets: seq<SeqSet>, head: Heads, p: Plan) {
    && 0 < p.len
    && NoDuplicates(p.sets)
    && Fits(sets, head, p)
  }

  lemma RoundsBounds(sets: seq<SeqSet>, head: Heads, chosen: seq<SeqSet>, nUbatch: nat)
    requires chosen != []
    requires forall k | 0 <= k < |chosen| :: 0 < Remaining(sets, head, chosen[k])
    ensures 1 <= Rounds(sets, head, chosen, nUbatch)
    ensures forall k | 0 <= k < |chosen| :: Rounds(sets, head, chosen, nUbatch) <= Remaining(sets, head, chosen[k])
    ensures |chosen| <= nUbatch ==> Rounds(sets, head, chosen, nUbatch) * |chosen| <= nUbatch
    ensures nUbatch < |chosen| ==> Rounds(sets, head, chosen, nUbatch) == 1
  {
    MinRemainingIsMin(sets, head, chosen);
    var n, l := |chosen|, Rounds(sets, head, chosen, nUbatch);
    if n <= nUbatch {
      var q := nUbatch / n;
      assert 1 <= q && q * n <= nUbatch by { DivideBounds(nUbatch, n); }
      assert l <= q;
      assert l * n <= q * n by { MultiplyOrder(l, q, n); }
    }
  }

  lemma DivideBounds(a: nat, n: nat)
    requires 0 < n
    ensures (a / n) * n <= a < (a / n + 1) * n
    ensures n <= a ==> 1 <= a / n
  {
  }

  lemma MultiplyOrder(a: nat, b: nat, n: nat)
    requires a <= b
    ensures a * n <= b * n
  {
  }

  /** Every plan is sound, serves a prefix of the chosen sets, leaves each served set finished or
    * with a full tail, and is never empty: in particular the truncation leaves tokens in. */
  lemma PlanForOk(sets: seq<SeqSet>, head: Heads, chosen: seq<SeqSet>, nUbatch: nat, nKeepTail: nat)
    requires chosen != [] && NoDuplicates(chosen)
    requires forall k | 0 <= k < |chosen| :: 0 < Remaining(sets, head, chosen[k])
    requires nKeepTail == 0 || nKeepTail < nUbatch
    ensures var p := PlanFor(sets, head, chosen, nUbatch, nKeepTail);
            && PlanOk(sets, head, p)
            && p.sets != [] && p.sets <= chosen
            && forall k | 0 <= k < |p.sets| :: TailKept(sets, head, p.sets[k], p.len, nKeepTail)
  {
    RoundsBounds(sets, head, chosen, nUbatch);
    var len := Rounds(sets, head, chosen, nUbatch);
    if nKeepTail > 0 {
      var n := KeepCount(sets, head, chosen, len, nKeepTail);
    }
  }

  /** A plan takes the common number of rounds, or it is the first set alone and short enough. */
  lemma PlanForShape(sets: seq<SeqSet>, head: Heads, chosen: seq<SeqSet>, nUbatch: nat, nKeepTail: nat)
    requires chosen != [] && NoDuplicates(chosen) && |chosen| <= nUbatch + 1
    requires forall k | 0 <= k < |chosen| :: 0 < Remaining(sets, head, chosen[k])
    requires nKeepTail == 0 || nKeepTail < nUbatch
    ensures var p := PlanFor(sets, head, chosen, nUbatch, nKeepTail);
            p.len == Rounds(sets, head, chosen, nUbatch) || (|p.sets| == 1 && p.len <= nUbatch)
  {
    RoundsBounds(sets, head, chosen, nUbatch);
    var len := Rounds(sets, head, chosen, nUbatch);
    if |chosen| <= nUbatch {
      MultiplyOrder(1, |chosen|, len);
    }
  }

  lemma SizeAgainstBound(nUbatch: nat, c: nat, rounds: nat, m: nat, l: nat)
    requires 1 <= m <= c <= nUbatch + 1 && 1 <= l
    requires c <= nUbatch ==> rounds * c <= nUbatch
    requires nUbatch < c ==> rounds == 1
    requires l == rounds || (m == 1 && l <= nUbatch)
    ensures nUbatch < l * m <==> nUbatch < m
    ensures nUbatch < m ==> l == 1 && m == nUbatch + 1
  {
    if c <= nUbatch {
      MultiplyOrder(m, c, rounds);
    }
    assert m == 1 ==> l * m == l;
    assert rounds == 1 ==> rounds * m == m;
  }

  /** Would one token of every chosen set leave each of them finished or with a full tail? */
  ghost predicate AllMayBeCut(sets: seq<SeqSet>, head: Heads, chosen: seq<SeqSet>, nKeepTail: nat) {
    forall k | 0 <= k < |chosen| :: TailKept(sets, head, chosen[k], 1, nKeepTail)
  }

  /** When the scan chose more sets than n_ubatch, all of them are served exactly if one token of each
    * may go. */
  lemma AllServedWhenCut(sets: seq<SeqSet>, head: Heads, chosen: seq<SeqSet>, nUbatch: nat, nKeepTail: nat)
    requires chosen != [] && NoDuplicates(chosen) && nUbatch < |chosen|
    requires forall k | 0 <= k < |chosen| :: 0 < Remaining(sets, head, chosen[k])
    requires nKeepTail == 0 || nKeepTail < nUbatch
    ensures |PlanFor(sets, head, chosen, nUbatch, nKeepTail).sets| == |chosen| <==>
            AllMayBeCut(sets, head, chosen, nKeepTail)
  {
    RoundsBounds(sets, head, chosen, nUbatch);
    if nKeepTail > 0 {
      var n := KeepCount(sets, head, chosen, 1, nKeepTail);
      assert n == |chosen| <==> AllMayBeCut(sets, head, chosen, nKeepTail);
    }
  }

  /** The size of a plan exceeds n_ubatch exactly when the scan chose one set too many and one token of
    * every chosen set may go; it then exceeds it by one token. */
  lemma PlanForSize(sets: seq<SeqSet>, head: Heads, chosen: seq<SeqSet>, nUbatch: nat, nKeepTail: nat)
    requires chosen != [] && NoDuplicates(chosen) && |chosen| <= nUbatch + 1
    requires forall k | 0 <= k < |chosen| :: 0 < Remaining(sets, head, chosen[k])
    requires nKeepTail == 0 || nKeepTail < nUbatch
    ensures var p := PlanFor(sets, head, chosen, nUbatch, nKeepTail);
            && (nUbatch < p.len * |p.sets| <==> nUbatch < |chosen| && AllMayBeCut(sets, head, chosen, nKeepTail))
            && (nUbatch < p.len * |p.sets| <==> nUbatch < |p.sets|)
            && (nUbatch < |p.sets| ==> p.len == 1 && |p.sets| == nUbatch + 1)
  {
    RoundsBounds(sets, head, chosen, nUbatch);
    PlanForOk(sets, head, chosen, nUbatch, nKeepTail);
    PlanForShape(sets, head, chosen, nUbatch, nKeepTail);
    var p := PlanFor(sets, head, chosen, nUbatch, nKeepTail);
    SizeAgainstBound(nUbatch, |chosen|, Rounds(sets, head, chosen, nUbatch), |p.sets|, p.len);
    if nUbatch < |chosen| {
      AllServedWhenCut(sets, head, chosen, nUbatch, nKeepTail);
    }
  }

  ghost predicate Disjoint(chosen: seq<SeqSet>) {
    forall k, l | 0 <= k < l < |chosen| :: chosen[k] !! chosen[l]
  }

  /** Disjoint non-empty sets are at most as many as there are elements to share out. */
  lemma {:induction false} DisjointSetsFit(chosen: seq<SeqSet>, all: SeqSet)
    requires Disjoint(chosen) && forall k | 0 <= k < |chosen| :: chosen[k] != {} && chosen[k] <= all
    ensures |chosen| <= |all|
    decreases |chosen|
  {
    if chosen != [] {
      var n := |chosen| - 1;
      var rest := all - chosen[n];
      forall k | 0 <= k < n ensures chosen[..n][k] <= rest {
        assert chosen[k] !! chosen[n];
      }
      DisjointSetsFit(chosen[..n], rest);
      assert all == rest + chosen[n];
    }
  }

  lemma {:induction false} PlanIdxsToLength(sets: seq<SeqSet>, head: Heads, p: Plan, n: nat)
    requires Fits(sets, head, p) && n <= |p.sets|
    ensures |PlanIdxsTo(sets, head, p, n)| == p.len * n
  {
    if n > 0 {
      PlanIdxsToLength(sets, head, p, n - 1);
      assert p.len * n == p.len * (n - 1) + p.len;
    }
  }

  lemma PlanIdxsLength(sets: seq<SeqSet>, head: Heads, p: Plan)
    requires Fits(sets, head, p)
    ensures |PlanIdxs(sets, head, p)| == p.len * |p.sets|
  {
    PlanIdxsToLength(sets, head, p, |p.sets|);
  }

  lemma GroupBounds(len: nat, n: nat, g: nat, j: nat)
    requires g < n && j < len
    ensures 0 <= len * g + j < len * n
  {
    assert len * (g + 1) <= len * n by { MultiplyOrder(g + 1, n, len); }
  }

  lemma AppendIndex(a: seq<nat>, b: seq<nat>, k: nat)
    requires k < |a| + |b|
    ensures (a + b)[k] == if k < |a| then a[k] else b[k - |a|]
  {
  }

  lemma {:induction false} PlanIdxsToGroups(sets: seq<SeqSet>, head: Heads, p: Plan, n: nat, g: nat, j: nat)
    requires Fits(sets, head, p) && g < n <= |p.sets| && j < p.len
    ensures p.len * g + j < |PlanIdxsTo(sets, head, p, n)|
    ensures PlanIdxsTo(sets, head, p, n)[p.len * g + j] == Group(sets, head, p.sets[g], p.len)[j]
  {
    GroupBounds(p.len, n, g, j);
    PlanIdxsToLength(sets, head, p, n);
    PlanIdxsToLength(sets, head, p, n - 1);
    AppendIndex(PlanIdxsTo(sets, head, p, n - 1), Group(sets, head, p.sets[n - 1], p.len), p.len * g + j);
    if g < n - 1 {
      PlanIdxsToGroups(sets, head, p, n - 1, g, j);
    }
  }

  /** Equal groups: token j of group g is the j-th next token of the g-th set. */
  lemma PlanIdxsGroups(sets: seq<SeqSet>, head: Heads, p: Plan, g: nat, j: nat)
    requires Fits(sets, head, p)
    requires g < |p.sets| && j < p.len
    ensures 0 <= p.len * g + j < |PlanIdxs(sets, head, p)|
    ensures PlanIdxs(sets, head, p)[p.len * g + j] == Members(sets, p.sets[g])[At(head, p.sets[g]) + j]
  {
    PlanIdxsToGroups(sets, head, p, |p.sets|, g, j);
  }

  lemma {:induction false} AdvanceToAt(head: Heads, p: Plan, n: nat, s: SeqSet)
    requires n <= |p.sets|
    ensures s in p.sets[..n] ==> At(AdvanceTo(head, p, n), s) == At(head, s) + p.len
    ensures s !in p.sets[..n] ==> At(AdvanceTo(head, p, n), s) == At(head, s)
  {
    if n > 0 {
      AdvanceToAt(head, p, n - 1, s);
      assert p.sets[..n] == p.sets[..n - 1] + [p.sets[n - 1]];
    }
  }

  lemma AdvanceAt(head: Heads, p: Plan, s: SeqSet)
    ensures At(Advance(head, p), s) == At(head, s) + if s in p.sets then p.len else 0
  {
    AdvanceToAt(head, p, |p.sets|, s);
    assert p.sets[..|p.sets|] == p.sets;
  }

  lemma {:induction false} PlanToKeepsLedger(sets: seq<SeqSet>, head: Heads, p: Plan, emitted: seq<nat>, n: nat)
    requires Ledger(sets, head, emitted) && NoDuplicates(p.sets) && Fits(sets, head, p) && n <= |p.sets|
    ensures Ledger(sets, AdvanceTo(head, p, n), emitted + PlanIdxsTo(sets, head, p, n))
  {
    if n == 0 {
      assert emitted + [] == emitted;
    } else {
      PlanToKeepsLedger(sets, head, p, emitted, n - 1);
      NextOfPlan(sets, head, p, emitted + PlanIdxsTo(sets, head, p, n - 1), n - 1);
      AppendAssociates(emitted, PlanIdxsTo(sets, head, p, n - 1), Group(sets, head, p.sets[n - 1], p.len));
    }
  }

  /** One more set of a plan. */
  lemma NextOfPlan(sets: seq<SeqSet>, head: Heads, p: Plan, given: seq<nat>, n: nat)
    requires NoDuplicates(p.sets) && Fits(sets, head, p) && n < |p.sets|
    requires Ledger(sets, AdvanceTo(head, p, n), given)
    ensures Ledger(sets, AdvanceTo(head, p, n + 1), given + Group(sets, head, p.sets[n], p.len))
  {
    AdvanceToAt(head, p, n, p.sets[n]);
    LedgerExtends(sets, AdvanceTo(head, p, n), given, p.sets[n], p.len);
  }

  /** Emitting a plan keeps the ledger: per set nothing twice, nothing skipped, in order. */
  lemma PlanKeepsLedger(sets: seq<SeqSet>, head: Heads, p: Plan, emitted: seq<nat>)
    requires Ledger(sets, head, emitted) && NoDuplicates(p.sets) && Fits(sets, head, p)
    ensures Ledger(sets, Advance(head, p), emitted + PlanIdxs(sets, head, p))
  {
    PlanToKeepsLedger(sets, head, p, emitted, |p.sets|);
  }
}
