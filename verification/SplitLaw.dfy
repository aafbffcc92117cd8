/** What an equal split must return, said of the batch alone: no heads, no index lists, no plan. The law
  * leaves no choice, and the closed form obeys it.
  */
module SplitLaw {
  import opened BatchTokens
  import opened Sequences
  import opened SplitPlan
  import opened EqualSplit

  // ---- the tokens of one set -----------------------------------------------------------

  /** How many unused tokens of set s there are below n. */
  ghost function CountUnused(sets: seq<SeqSet>, used: seq<bool>, s: SeqSet, n: nat): nat
    requires n <= |sets| == |used|
  {
    if n == 0 then 0
    else CountUnused(sets, used, s, n - 1) + if sets[n - 1] == s && !used[n - 1] then 1 else 0
  }

  /** The unused tokens of set s. */
  ghost function Left(sets: seq<SeqSet>, used: seq<bool>, s: SeqSet): nat
    requires |sets| == |used|
  {
    CountUnused(sets, used, s, |sets|)
  }

  /** Token i is unused, of set s, and has j unused set-mates before it. */
  ghost predicate IsNext(sets: seq<SeqSet>, used: seq<bool>, s: SeqSet, i: nat, j: nat)
    requires |sets| == |used|
  {
    i < |sets| && sets[i] == s && !used[i] && CountUnused(sets, used, s, i) == j
  }

  lemma {:induction false} CountUnusedIs(sets: seq<SeqSet>, used: seq<bool>, head: Heads, s: SeqSet, n: nat)
    requires Tracks(sets, used, head) && n <= |sets|
    ensures var m := |MembersBelow(sets, s, n)|;
            CountUnused(sets, used, s, n) == if At(head, s) < m then m - At(head, s) else 0
  {
    if n > 0 {
      CountUnusedIs(sets, used, head, s, n - 1);
      assert UsedUpToHead(sets, used, head, n - 1);
    }
  }

  lemma LeftIsRemaining(sets: seq<SeqSet>, used: seq<bool>, head: Heads, s: SeqSet)
    requires Tracks(sets, used, head)
    ensures Left(sets, used, s) == Remaining(sets, head, s)
  {
    CountUnusedIs(sets, used, head, s, |sets|);
    assert HeadInRange(sets, head, s);
  }

  lemma NextIsMember(sets: seq<SeqSet>, used: seq<bool>, head: Heads, s: SeqSet, j: nat)
    requires Tracks(sets, used, head) && j < Remaining(sets, head, s)
    ensures IsNext(sets, used, s, Members(sets, s)[At(head, s) + j], j)
  {
    var i := Members(sets, s)[At(head, s) + j];
    MembersAt(sets, s, At(head, s) + j);
    assert UsedUpToHead(sets, used, head, i);
    CountUnusedIs(sets, used, head, s, i);
  }

  lemma {:induction false} CountUnusedGrows(sets: seq<SeqSet>, used: seq<bool>, s: SeqSet, m: nat, n: nat)
    requires m <= n <= |sets| == |used|
    ensures CountUnused(sets, used, s, m) <= CountUnused(sets, used, s, n)
    decreases n
  {
    if m < n {
      CountUnusedGrows(sets, used, s, m, n - 1);
    }
  }

  lemma NextIsUnique(sets: seq<SeqSet>, used: seq<bool>, s: SeqSet, j: nat, i: nat, i': nat)
    requires |sets| == |used| && IsNext(sets, used, s, i, j) && IsNext(sets, used, s, i', j)
    ensures i == i'
  {
    if i < i' {
      CountUnusedGrows(sets, used, s, i + 1, i');
    } else if i' < i {
      CountUnusedGrows(sets, used, s, i' + 1, i);
    }
  }

  // ---- which sets are chosen -----------------------------------------------------------

  /** Behind the first k openers token i may open the next group: it is unused, shares no sequence with
    * theirs, and in sequential mode its first id follows the last one's. */
  ghost predicate MayOpen(sets: seq<SeqSet>, first: seq<nat>, used: seq<bool>, openers: seq<nat>, k: nat, i: nat,
                          sequential: bool)
    requires |used| == |first| == |sets| && k <= |openers| && forall l | 0 <= l < k :: openers[l] < |sets|
  {
    && i < |sets| && !used[i]
    && (forall l | 0 <= l < k :: openers[l] < i && sets[openers[l]] !! sets[i])
    && (sequential && 0 < k ==> first[i] == first[openers[k - 1]] + 1)
  }

  /** The tokens that open the groups: each may, and none that could come next is passed over while at most
    * n_ubatch groups are open. */
  ghost predicate Openers(sets: seq<SeqSet>, first: seq<nat>, used: seq<bool>, nUbatch: nat, sequential: bool,
                          openers: seq<nat>)
    requires |used| == |first| == |sets|
  {
    && |openers| <= nUbatch + 1
    && (forall k | 0 <= k < |openers| :: openers[k] < |sets|)
    && (forall k: nat | k < |openers| :: MayOpen(sets, first, used, openers, k, openers[k], sequential))
    && forall k: nat, i: nat ::
         k <= |openers| && k <= nUbatch && MayOpen(sets, first, used, openers, k, i, sequential) ==>
           k < |openers| && openers[k] <= i
  }

  lemma MayOpenPrefix(sets: seq<SeqSet>, first: seq<nat>, used: seq<bool>, a: seq<nat>, b: seq<nat>, k: nat, i: nat,
                      sequential: bool)
    requires |used| == |first| == |sets| && k <= |a| && k <= |b| && forall l | 0 <= l < k :: a[l] == b[l] < |sets|
    ensures MayOpen(sets, first, used, a, k, i, sequential) <==> MayOpen(sets, first, used, b, k, i, sequential)
  {
  }

  lemma OpenersAgree(sets: seq<SeqSet>, first: seq<nat>, used: seq<bool>, nUbatch: nat, sequential: bool,
                     a: seq<nat>, b: seq<nat>, k: nat)
    requires |used| == |first| == |sets|
    requires Openers(sets, first, used, nUbatch, sequential, a) && Openers(sets, first, used, nUbatch, sequential, b)
    requires k < |a| && k <= |b| && forall l | 0 <= l < k :: a[l] == b[l]
    ensures k < |b| && b[k] <= a[k]
  {
    assert MayOpen(sets, first, used, a, k, a[k], sequential);
    MayOpenPrefix(sets, first, used, a, b, k, a[k], sequential);
  }

  lemma {:induction false} OpenersUniqueTo(sets: seq<SeqSet>, first: seq<nat>, used: seq<bool>, nUbatch: nat,
                                           sequential: bool, a: seq<nat>, b: seq<nat>, n: nat)
    requires |used| == |first| == |sets| && n <= |a|
    requires Openers(sets, first, used, nUbatch, sequential, a) && Openers(sets, first, used, nUbatch, sequential, b)
    ensures n <= |b| && forall l | 0 <= l < n :: a[l] == b[l]
  {
    if n > 0 {
      OpenersUniqueTo(sets, first, used, nUbatch, sequential, a, b, n - 1);
      OpenersAgree(sets, first, used, nUbatch, sequential, a, b, n - 1);
      OpenersAgree(sets, first, used, nUbatch, sequential, b, a, n - 1);
    }
  }

  /** The law names the openers. */
  lemma OpenersUnique(sets: seq<SeqSet>, first: seq<nat>, used: seq<bool>, nUbatch: nat, sequential: bool,
                      a: seq<nat>, b: seq<nat>)
    requires |used| == |first| == |sets|
    requires Openers(sets, first, used, nUbatch, sequential, a) && Openers(sets, first, used, nUbatch, sequential, b)
    ensures a == b
  {
    OpenersUniqueTo(sets, first, used, nUbatch, sequential, a, b, |a|);
    OpenersUniqueTo(sets, first, used, nUbatch, sequential, b, a, |b|);
  }

  /** What is settled once the scan has passed the tokens below i. */
  ghost predicate SettledBelow(sets: seq<SeqSet>, first: seq<nat>, used: seq<bool>, nUbatch: nat, sequential: bool,
                               openers: seq<nat>, i: nat)
    requires |used| == |first| == |sets| && i <= |sets|
  {
    && (forall k | 0 <= k < |openers| :: openers[k] < i)
    && (forall k: nat | k < |openers| :: MayOpen(sets, first, used, openers, k, openers[k], sequential))
    && forall k: nat, x: nat | k <= |openers| && k <= nUbatch && x < i
                               && MayOpen(sets, first, used, openers, k, x, sequential) ::
         k < |openers| && openers[k] <= x
  }

  lemma SettledPasses(sets: seq<SeqSet>, first: seq<nat>, used: seq<bool>, nUbatch: nat, sequential: bool,
                      acc: seq<nat>, i: nat)
    requires |used| == |first| == |sets| && i < |sets| && |acc| <= nUbatch
    requires SettledBelow(sets, first, used, nUbatch, sequential, acc, i)
    requires used[i] || !Admissible(sets, first, acc, i, sequential)
    ensures SettledBelow(sets, first, used, nUbatch, sequential, acc, i + 1)
  {
  }

  lemma SettledTakes(sets: seq<SeqSet>, first: seq<nat>, used: seq<bool>, nUbatch: nat, sequential: bool,
                     acc: seq<nat>, i: nat)
    requires |used| == |first| == |sets| && i < |sets| && |acc| <= nUbatch
    requires SettledBelow(sets, first, used, nUbatch, sequential, acc, i)
    requires !used[i] && Admissible(sets, first, acc, i, sequential)
    ensures SettledBelow(sets, first, used, nUbatch, sequential, acc + [i], i + 1)
  {
    var more := acc + [i];
    assert more[|acc|] == i;
    forall k: nat, x: nat | k <= |acc|
      ensures MayOpen(sets, first, used, more, k, x, sequential) <==> MayOpen(sets, first, used, acc, k, x, sequential)
    {
      MayOpenPrefix(sets, first, used, more, acc, k, x, sequential);
    }
    forall k: nat, x: nat | k <= |more| && k <= nUbatch && x < i + 1
                            && MayOpen(sets, first, used, more, k, x, sequential)
      ensures k < |more| && more[k] <= x
    {
      if k < |more| {
        assert MayOpen(sets, first, used, acc, k, x, sequential);
      }
    }
    forall k: nat | k < |more| ensures MayOpen(sets, first, used, more, k, more[k], sequential) {
      assert k < |acc| ==> MayOpen(sets, first, used, acc, k, acc[k], sequential);
    }
  }

  lemma {:induction false} ScanSettles(sets: seq<SeqSet>, first: seq<nat>, used: seq<bool>, nUbatch: nat,
                                       sequential: bool, i: nat, acc: seq<nat>)
    requires |used| == |first| == |sets| && i <= |sets| && |acc| <= nUbatch
    requires SettledBelow(sets, first, used, nUbatch, sequential, acc, i)
    ensures Openers(sets, first, used, nUbatch, sequential,
                    LeadersFrom(sets, first, used, nUbatch, sequential, i, acc))
    decreases |sets| - i
  {
    var r := LeadersFrom(sets, first, used, nUbatch, sequential, i, acc);
    if i == |sets| {
      assert r == acc;
      AllSettled(sets, first, used, nUbatch, sequential, acc);
    } else if used[i] || !Admissible(sets, first, acc, i, sequential) {
      assert r == LeadersFrom(sets, first, used, nUbatch, sequential, i + 1, acc);
      SettledPasses(sets, first, used, nUbatch, sequential, acc, i);
      ScanSettles(sets, first, used, nUbatch, sequential, i + 1, acc);
    } else {
      SettledTakes(sets, first, used, nUbatch, sequential, acc, i);
      if |acc| + 1 <= nUbatch {
        assert r == LeadersFrom(sets, first, used, nUbatch, sequential, i + 1, acc + [i]);
        ScanSettles(sets, first, used, nUbatch, sequential, i + 1, acc + [i]);
      } else {
        assert r == acc + [i];
        CutOff(sets, first, used, nUbatch, sequential, acc + [i], i + 1);
      }
    }
  }

  lemma AllSettled(sets: seq<SeqSet>, first: seq<nat>, used: seq<bool>, nUbatch: nat, sequential: bool,
                   openers: seq<nat>)
    requires |used| == |first| == |sets| && |openers| <= nUbatch
    requires SettledBelow(sets, first, used, nUbatch, sequential, openers, |sets|)
    ensures Openers(sets, first, used, nUbatch, sequential, openers)
  {
  }

  /** Once n_ubatch + 1 groups are open, later tokens do not matter. */
  lemma CutOff(sets: seq<SeqSet>, first: seq<nat>, used: seq<bool>, nUbatch: nat, sequential: bool,
               openers: seq<nat>, i: nat)
    requires |used| == |first| == |sets| && i <= |sets| && |openers| == nUbatch + 1
    requires SettledBelow(sets, first, used, nUbatch, sequential, openers, i)
    ensures Openers(sets, first, used, nUbatch, sequential, openers)
  {
  }

  /** The scan over the batch returns the openers. */
  lemma LeadersAreOpeners(sets: seq<SeqSet>, first: seq<nat>, used: seq<bool>, nUbatch: nat, sequential: bool)
    requires |used| == |first| == |sets|
    ensures Openers(sets, first, used, nUbatch, sequential, Leaders(sets, first, used, nUbatch, sequential))
  {
    ScanSettles(sets, first, used, nUbatch, sequential, 0, []);
  }

  // ---- how many sets are served, and with how many tokens ------------------------------

  /** The tokens every chosen set can give: as many as the shortest has, or as fit into n_ubatch, but one in
    * any case; and no fewer. */
  ghost predicate CommonLength(left: seq<int>, nUbatch: nat, len: int) {
    && 1 <= len && (forall k | 0 <= k < |left| :: len <= left[k])
    && (len == 1 || len * |left| <= nUbatch)
    && ((exists k :: 0 <= k < |left| && left[k] == len) || nUbatch < (len + 1) * |left|)
  }

  /** A set with l tokens left may give len: it is finished, or keeps a tail. */
  ghost predicate MayGive(l: int, len: int, keep: nat) {
    l == len || len + keep <= l
  }

  /** n is the length of the longest prefix of sets that may give len. */
  ghost predicate LongestPrefix(left: seq<int>, len: int, keep: nat, n: nat) {
    && n <= |left| && (forall k | 0 <= k < n :: MayGive(left[k], len, keep))
    && (n < |left| ==> !MayGive(left[n], len, keep))
  }

  /** Out of the chosen sets the first n are served, with len tokens each: all of them, where no tail is kept;
    * else the longest prefix that finishes or keeps one; and if that is empty, the first set alone, whole if
    * it fits and else but for its tail. */
  ghost predicate Served(left: seq<int>, nUbatch: nat, keep: nat, n: nat, len: int) {
    exists common :: CommonLength(left, nUbatch, common) && ServedWith(left, nUbatch, keep, common, n, len)
  }

  ghost predicate ServedWith(left: seq<int>, nUbatch: nat, keep: nat, common: int, n: nat, len: int) {
    if keep == 0 then n == |left| && len == common
    else if LongestPrefix(left, common, keep, 0) then
      n == 1 && 0 < |left| && len == if left[0] <= nUbatch then left[0] else left[0] - keep
    else LongestPrefix(left, common, keep, n) && len == common
  }

  lemma CommonLengthUnique(left: seq<int>, nUbatch: nat, a: int, b: int)
    requires left != [] && CommonLength(left, nUbatch, a) && CommonLength(left, nUbatch, b)
    ensures a <= b
  {
    if b < a && forall k | 0 <= k < |left| :: left[k] != b {
      MultiplyOrder(b + 1, a, |left|);
    }
  }

  lemma ServedUnique(left: seq<int>, nUbatch: nat, keep: nat, n: nat, len: int, n': nat, len': int)
    requires left != [] && Served(left, nUbatch, keep, n, len) && Served(left, nUbatch, keep, n', len')
    ensures n == n' && len == len'
  {
    var a :| CommonLength(left, nUbatch, a) && ServedWith(left, nUbatch, keep, a, n, len);
    var b :| CommonLength(left, nUbatch, b) && ServedWith(left, nUbatch, keep, b, n', len');
    CommonLengthUnique(left, nUbatch, a, b);
    CommonLengthUnique(left, nUbatch, b, a);
  }

  ghost function Lefts(sets: seq<SeqSet>, used: seq<bool>, chosen: seq<SeqSet>): (left: seq<int>)
    requires |sets| == |used|
    ensures |left| == |chosen| && forall k | 0 <= k < |left| :: left[k] == Left(sets, used, chosen[k])
  {
    seq(|chosen|, k requires 0 <= k < |chosen| => Left(sets, used, chosen[k]))
  }

  lemma RoundsAreCommon(sets: seq<SeqSet>, used: seq<bool>, head: Heads, chosen: seq<SeqSet>, nUbatch: nat)
    requires Tracks(sets, used, head) && chosen != [] && AllRemain(sets, head, chosen)
    ensures CommonLength(Lefts(sets, used, chosen), nUbatch, Rounds(sets, head, chosen, nUbatch))
  {
    var left, len := Lefts(sets, used, chosen), Rounds(sets, head, chosen, nUbatch);
    forall k | 0 <= k < |chosen| ensures left[k] == Remaining(sets, head, chosen[k]) {
      LeftIsRemaining(sets, used, head, chosen[k]);
    }
    RoundsBounds(sets, head, chosen, nUbatch);
    MinRemainingIsMin(sets, head, chosen);
    if len != MinRemaining(sets, head, chosen) {
      if |chosen| <= nUbatch {
        DivideBounds(nUbatch, |chosen|);
      }
    }
  }

  lemma PlanIsServed(sets: seq<SeqSet>, used: seq<bool>, head: Heads, chosen: seq<SeqSet>, nUbatch: nat, keep: nat)
    requires Tracks(sets, used, head) && chosen != [] && AllRemain(sets, head, chosen)
    requires keep == 0 || keep < nUbatch
    ensures var p := PlanFor(sets, head, chosen, nUbatch, keep);
            && p.sets <= chosen && Served(Lefts(sets, used, chosen), nUbatch, keep, |p.sets|, p.len)
  {
    RoundsAreCommon(sets, used, head, chosen, nUbatch);
    RoundsBounds(sets, head, chosen, nUbatch);
    var left, len := Lefts(sets, used, chosen), Rounds(sets, head, chosen, nUbatch);
    forall k | 0 <= k < |chosen|
      ensures MayGive(left[k], len, keep) <==> TailKept(sets, head, chosen[k], len, keep)
    {
      LeftIsRemaining(sets, used, head, chosen[k]);
    }
    var p := PlanFor(sets, head, chosen, nUbatch, keep);
    if keep > 0 {
      PlanForKept(sets, head, chosen, nUbatch, keep);
      LeftIsRemaining(sets, used, head, chosen[0]);
      var n := KeepCount(sets, head, chosen, len, keep);
      assert LongestPrefix(left, len, keep, n);
    }
    assert ServedWith(left, nUbatch, keep, len, |p.sets|, p.len);
  }

  // ---- the micro-batch -----------------------------------------------------------------

  /** Row j of group g is the j-th unused token of the group's set. */
  ghost predicate RowIsNext(sets: seq<SeqSet>, used: seq<bool>, idxs: seq<nat>, len: nat, g: nat, j: nat, s: SeqSet)
    requires |sets| == |used|
  {
    0 <= len * g + j < |idxs| && IsNext(sets, used, s, idxs[len * g + j], j)
  }

  ghost predicate GroupsAreNext(sets: seq<SeqSet>, used: seq<bool>, idxs: seq<nat>, chosen: seq<SeqSet>, n: nat,
                                len: nat)
    requires |sets| == |used| && n <= |chosen|
  {
    |idxs| == len * n && forall g: nat, j: nat | g < n && j < len :: RowIsNext(sets, used, idxs, len, g, j, chosen[g])
  }

  /** The rows idxs are an equal split of the unused tokens. */
  ghost predicate EqualSplitOf(sets: seq<SeqSet>, first: seq<nat>, used: seq<bool>, idxs: seq<nat>, nUbatch: nat,
                               sequential: bool, keep: nat)
    requires |used| == |first| == |sets|
  {
    exists openers, n: nat, len: nat ::
      EqualSplitWith(sets, first, used, idxs, nUbatch, sequential, keep, openers, n, len)
  }

  ghost predicate EqualSplitWith(sets: seq<SeqSet>, first: seq<nat>, used: seq<bool>, idxs: seq<nat>, nUbatch: nat,
                                 sequential: bool, keep: nat, openers: seq<nat>, n: nat, len: nat)
    requires |used| == |first| == |sets|
  {
    && Openers(sets, first, used, nUbatch, sequential, openers) && openers != []
    && var chosen := SetsOf(sets, openers);
       && n <= |chosen| && Served(Lefts(sets, used, chosen), nUbatch, keep, n, len)
       && GroupsAreNext(sets, used, idxs, chosen, n, len)
  }

  /** The law leaves no choice: two lists of rows that obey it are the same. */
  lemma EqualSplitUnique(sets: seq<SeqSet>, first: seq<nat>, used: seq<bool>, a: seq<nat>, b: seq<nat>, nUbatch: nat,
                         sequential: bool, keep: nat)
    requires |used| == |first| == |sets|
    requires EqualSplitOf(sets, first, used, a, nUbatch, sequential, keep)
    requires EqualSplitOf(sets, first, used, b, nUbatch, sequential, keep)
    ensures a == b
  {
    var xs, n: nat, len: nat :| EqualSplitWith(sets, first, used, a, nUbatch, sequential, keep, xs, n, len);
    var ys, n': nat, len': nat :| EqualSplitWith(sets, first, used, b, nUbatch, sequential, keep, ys, n', len');
    OpenersUnique(sets, first, used, nUbatch, sequential, xs, ys);
    var chosen := SetsOf(sets, xs);
    ServedUnique(Lefts(sets, used, chosen), nUbatch, keep, n, len, n', len');
    RowsUnique(sets, used, a, b, chosen, n, len);
  }

  lemma RowsUnique(sets: seq<SeqSet>, used: seq<bool>, a: seq<nat>, b: seq<nat>, chosen: seq<SeqSet>, n: nat, len: nat)
    requires |sets| == |used| && n <= |chosen|
    requires GroupsAreNext(sets, used, a, chosen, n, len) && GroupsAreNext(sets, used, b, chosen, n, len)
    ensures a == b
  {
    forall at | 0 <= at < |a| ensures a[at] == b[at] {
      var g, j := RowPlace(at, len, n);
      assert RowIsNext(sets, used, a, len, g, j, chosen[g]) && RowIsNext(sets, used, b, len, g, j, chosen[g]);
      NextIsUnique(sets, used, chosen[g], j, a[at], b[at]);
    }
  }

  /** The group and the place in it of a row. */
  lemma RowPlace(at: nat, len: nat, n: nat) returns (g: nat, j: nat)
    requires at < len * n
    ensures g < n && j < len && at == len * g + j
  {
    if len == 0 {
      assert false;
    }
    g := at / len;
    DivideBounds(at, len);
    if n <= g {
      MultiplyOrder(n, g, len);
    }
    j := at - g * len;
  }

  /** The plan obeys the law. */
  lemma PlanObeys(sets: seq<SeqSet>, first: seq<nat>, used: seq<bool>, head: Heads, nUbatch: nat, sequential: bool,
                  keep: nat)
    requires |first| == |sets| && Tracks(sets, used, head) && forall i | 0 <= i < |sets| :: sets[i] != {}
    requires Chosen(sets, first, used, nUbatch, sequential) != [] && (keep == 0 || keep < nUbatch)
    ensures var p := NextPlan(sets, first, used, head, nUbatch, sequential, keep);
            PlanOk(sets, head, p)
            && EqualSplitOf(sets, first, used, PlanIdxs(sets, head, p), nUbatch, sequential, keep)
  {
    var openers := Leaders(sets, first, used, nUbatch, sequential);
    var chosen := Chosen(sets, first, used, nUbatch, sequential);
    var p := NextPlan(sets, first, used, head, nUbatch, sequential, keep);
    ChosenSound(sets, first, used, head, nUbatch, sequential);
    LeadersAreOpeners(sets, first, used, nUbatch, sequential);
    PlanForOk(sets, head, chosen, nUbatch, keep);
    PlanIsServed(sets, used, head, chosen, nUbatch, keep);
    PlanRowsAreNext(sets, used, head, p, chosen);
    assert chosen == SetsOf(sets, openers);
    var idxs := PlanIdxs(sets, head, p);
    assert EqualSplitWith(sets, first, used, idxs, nUbatch, sequential, keep, openers, |p.sets|, p.len);
  }

  lemma PlanRowsAreNext(sets: seq<SeqSet>, used: seq<bool>, head: Heads, p: Plan, chosen: seq<SeqSet>)
    requires Tracks(sets, used, head) && PlanOk(sets, head, p) && p.sets <= chosen
    ensures GroupsAreNext(sets, used, PlanIdxs(sets, head, p), chosen, |p.sets|, p.len)
  {
    PlanIdxsLength(sets, head, p);
    forall g: nat, j: nat | g < |p.sets| && j < p.len
      ensures RowIsNext(sets, used, PlanIdxs(sets, head, p), p.len, g, j, chosen[g])
    {
      PlanIdxsGroups(sets, head, p, g, j);
      NextIsMember(sets, used, head, p.sets[g], j);
    }
  }
}
