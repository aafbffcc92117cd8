/** The bookkeeping of one equal split: how using and giving back tokens moves the heads of the
  * chosen sets, and what the split as a whole comes to.
  */
module EqualSplit {
  import opened BatchTokens
  import opened Sequences
  import opened SplitPlan

  /** The sets an equal split would choose now. */
  function Chosen(sets: seq<SeqSet>, first: seq<nat>, used: seq<bool>, nUbatch: nat, sequential: bool): (r: seq<SeqSet>)
    requires |used| == |first| == |sets|
    ensures |r| == |Leaders(sets, first, used, nUbatch, sequential)|
  {
    LeadersGood(sets, first, used, nUbatch, sequential);
    SetsOf(sets, Leaders(sets, first, used, nUbatch, sequential))
  }

  ghost predicate AllRemain(sets: seq<SeqSet>, head: Heads, chosen: seq<SeqSet>) {
    forall k | 0 <= k < |chosen| :: 0 < Remaining(sets, head, chosen[k])
  }

  /** Chosen sets are distinct and each still has a token to give. */
  lemma ChosenSound(sets: seq<SeqSet>, first: seq<nat>, used: seq<bool>, head: Heads, nUbatch: nat, sequential: bool)
    requires |first| == |sets| && Tracks(sets, used, head) && forall i | 0 <= i < |sets| :: sets[i] != {}
    ensures var chosen := Chosen(sets, first, used, nUbatch, sequential);
            NoDuplicates(chosen) && AllRemain(sets, head, chosen) && |chosen| <= nUbatch + 1
  {
    LeadersGood(sets, first, used, nUbatch, sequential);
    var leaders := Leaders(sets, first, used, nUbatch, sequential);
    forall k, l | 0 <= k < l < |leaders|
      ensures sets[leaders[k]] != sets[leaders[l]]
    {
      var x :| x in sets[leaders[k]];
      assert x !in sets[leaders[l]];
    }
    forall k | 0 <= k < |leaders|
      ensures 0 < Remaining(sets, head, sets[leaders[k]])
    {
      assert UsedUpToHead(sets, used, head, leaders[k]);
      RankIndexes(sets, leaders[k]);
    }
  }

  /** What the next equal split hands out. */
  ghost function NextPlan(sets: seq<SeqSet>, first: seq<nat>, used: seq<bool>, head: Heads,
                          nUbatch: nat, sequential: bool, nKeepTail: nat): Plan
    requires |first| == |sets| && Tracks(sets, used, head) && forall i | 0 <= i < |sets| :: sets[i] != {}
    requires Chosen(sets, first, used, nUbatch, sequential) != []
  {
    ChosenSound(sets, first, used, head, nUbatch, sequential);
    PlanFor(sets, head, Chosen(sets, first, used, nUbatch, sequential), nUbatch, nKeepTail)
  }

  ghost predicate SameAt(a: Heads, b: Heads, s: SeqSet) {
    At(a, s) == At(b, s)
  }

  /** The heads of the chosen sets have moved to cur, all others have not moved. */
  ghost predicate Moved(head0: Heads, head: Heads, chosen: seq<SeqSet>, cur: seq<nat>) {
    && |cur| == |chosen|
    && (forall s | 0 <= s < |chosen| :: At(head, chosen[s]) == cur[s])
    && forall t {:trigger SameAt(head0, head, t)} :: t in chosen || SameAt(head0, head, t)
  }

  /** The state inside an equal split. */
  ghost predicate EqualState(sets: seq<SeqSet>, used: seq<bool>, nUsed: nat, head0: Heads, head: Heads,
                             chosen: seq<SeqSet>, cur: seq<nat>)
  {
    && Tracks(sets, used, head)
    && nUsed == CountTrue(used)
    && NoDuplicates(chosen)
    && Moved(head0, head, chosen, cur)
  }

  lemma MovedUpdate(head0: Heads, head: Heads, chosen: seq<SeqSet>, cur: seq<nat>, s: nat, v: nat)
    requires Moved(head0, head, chosen, cur) && NoDuplicates(chosen) && s < |chosen|
    ensures Moved(head0, head[chosen[s] := v], chosen, cur[s := v])
  {
    forall t
      ensures t in chosen || SameAt(head0, head[chosen[s] := v], t)
    {
      assert t in chosen || SameAt(head0, head, t);
    }
  }

  lemma UseOne(sets: seq<SeqSet>, used: seq<bool>, nUsed: nat, head0: Heads, head: Heads,
               chosen: seq<SeqSet>, cur: seq<nat>, s: nat)
    requires EqualState(sets, used, nUsed, head0, head, chosen, cur)
    requires s < |chosen| && cur[s] < |Members(sets, chosen[s])|
    ensures var i := Members(sets, chosen[s])[cur[s]];
            && i < |used|
            && EqualState(sets, used[i := true], nUsed + 1, head0, head[chosen[s] := cur[s] + 1],
                          chosen, cur[s := cur[s] + 1])
  {
    UseNext(sets, used, head, chosen[s]);
    MovedUpdate(head0, head, chosen, cur, s, cur[s] + 1);
  }

  lemma GiveBackOne(sets: seq<SeqSet>, used: seq<bool>, nUsed: nat, head0: Heads, head: Heads,
                    chosen: seq<SeqSet>, cur: seq<nat>, s: nat)
    requires EqualState(sets, used, nUsed, head0, head, chosen, cur)
    requires s < |chosen| && 0 < cur[s]
    ensures cur[s] <= |Members(sets, chosen[s])| && 0 < nUsed
    ensures var i := Members(sets, chosen[s])[cur[s] - 1];
            && i < |used|
            && EqualState(sets, used[i := false], nUsed - 1, head0, head[chosen[s] := cur[s] - 1],
                          chosen, cur[s := cur[s] - 1])
  {
    GiveBackLast(sets, used, head, chosen[s]);
    MovedUpdate(head0, head, chosen, cur, s, cur[s] - 1);
  }

  /** The flags after giving back a list of tokens one by one, front to back. */
  function Cleared(used: seq<bool>, xs: seq<nat>): (r: seq<bool>)
    requires forall k | 0 <= k < |xs| :: xs[k] < |used|
    ensures |r| == |used| && forall i | 0 <= i < |used| :: r[i] <==> used[i] && i !in xs
  {
    if xs == [] then used else Cleared(used, xs[..|xs| - 1])[xs[|xs| - 1] := false]
  }

  /** Giving back a whole group front to back, although the flags are no prefix in between. */
  lemma {:induction false} ClearedCount(used: seq<bool>, xs: seq<nat>)
    requires forall k | 0 <= k < |xs| :: xs[k] < |used| && used[xs[k]]
    requires NoDuplicates(xs)
    ensures CountTrue(Cleared(used, xs)) == CountTrue(used) - |xs|
  {
    if xs != [] {
      var n := |xs| - 1;
      ClearedCount(used, xs[..n]);
      assert xs[n] !in xs[..n];
      CountTrueUpdate(Cleared(used, xs[..n]), xs[n]);
    }
  }

  lemma GroupTokenUsed(sets: seq<SeqSet>, used: seq<bool>, head: Heads, s: SeqSet, j: nat)
    requires Tracks(sets, used, head) && j < At(head, s) <= |Members(sets, s)|
    ensures var i := Members(sets, s)[j]; i < |sets| == |used| && sets[i] == s && used[i] && Rank(sets, i) == j
  {
    MembersAt(sets, s, j);
    assert UsedUpToHead(sets, used, head, Members(sets, s)[j]);
  }

  lemma GroupTokensUsed(sets: seq<SeqSet>, used: seq<bool>, head: Heads, s: SeqSet, lo: nat, hi: nat)
    requires Tracks(sets, used, head) && lo <= hi == At(head, s)
    ensures hi <= |Members(sets, s)|
    ensures var xs := Members(sets, s)[lo..hi];
            && NoDuplicates(xs)
            && forall k | 0 <= k < |xs| ::
                xs[k] < |sets| && sets[xs[k]] == s && used[xs[k]] && Rank(sets, xs[k]) == lo + k
  {
    assert HeadInRange(sets, head, s);
    var xs := Members(sets, s)[lo..hi];
    forall k | 0 <= k < |xs|
      ensures xs[k] < |sets| && sets[xs[k]] == s && used[xs[k]] && Rank(sets, xs[k]) == lo + k
    {
      GroupTokenUsed(sets, used, head, s, lo + k);
    }
    forall p, q | 0 <= p < q < |xs|
      ensures xs[p] != xs[q]
    {
      assert Rank(sets, xs[p]) == lo + p && Rank(sets, xs[q]) == lo + q;
    }
  }

  lemma GroupTokens(sets: seq<SeqSet>, used: seq<bool>, head: Heads, s: SeqSet, lo: nat, hi: nat, i: nat)
    requires Tracks(sets, used, head) && lo <= hi == At(head, s) && i < |sets|
    ensures hi <= |Members(sets, s)|
    ensures i in Members(sets, s)[lo..hi] <==> sets[i] == s && lo <= Rank(sets, i) < hi
  {
    GroupTokensUsed(sets, used, head, s, lo, hi);
    var xs := Members(sets, s)[lo..hi];
    if sets[i] == s && lo <= Rank(sets, i) < hi {
      RankIndexes(sets, i);
      assert xs[Rank(sets, i) - lo] == i;
    }
  }

  /** Giving a deferred set's whole group back restores its head. */
  lemma GiveBackGroup(sets: seq<SeqSet>, used: seq<bool>, nUsed: nat, head0: Heads, head: Heads,
                      chosen: seq<SeqSet>, cur: seq<nat>, s: nat, lo: nat)
    requires EqualState(sets, used, nUsed, head0, head, chosen, cur)
    requires s < |chosen| && lo <= cur[s]
    ensures cur[s] <= |Members(sets, chosen[s])|
    ensures var xs := Members(sets, chosen[s])[lo..cur[s]];
            && (forall k | 0 <= k < |xs| :: xs[k] < |used|)
            && |xs| <= nUsed
            && EqualState(sets, Cleared(used, xs), nUsed - |xs|, head0, head[chosen[s] := lo], chosen, cur[s := lo])
  {
    var t := chosen[s];
    GroupTokensUsed(sets, used, head, t, lo, cur[s]);
    var xs := Members(sets, t)[lo..cur[s]];
    ClearedCount(used, xs);
    MovedUpdate(head0, head, chosen, cur, s, lo);
    var head', used' := head[t := lo], Cleared(used, xs);
    forall u
      ensures HeadInRange(sets, head', u)
    {
      assert HeadInRange(sets, head, u);
    }
    forall i | 0 <= i < |sets|
      ensures UsedUpToHead(sets, used', head', i)
    {
      assert UsedUpToHead(sets, used, head, i);
      GroupTokens(sets, used, head, t, lo, cur[s], i);
    }
  }

  lemma TracksExtensional(sets: seq<SeqSet>, used: seq<bool>, a: Heads, b: Heads)
    requires Tracks(sets, used, a) && forall s :: SameAt(a, b, s)
    ensures Tracks(sets, used, b)
  {
    forall s
      ensures HeadInRange(sets, b, s)
    {
      assert HeadInRange(sets, a, s) && SameAt(a, b, s);
    }
    forall i | 0 <= i < |sets|
      ensures UsedUpToHead(sets, used, b, i)
    {
      assert UsedUpToHead(sets, used, a, i) && SameAt(a, b, sets[i]);
    }
  }

  /** Once the served sets have moved by len and the deferred ones are back, the flags are those of
    * the plan. */
  lemma EqualStateDone(sets: seq<SeqSet>, used: seq<bool>, nUsed: nat, head0: Heads, head: Heads,
                       chosen: seq<SeqSet>, cur: seq<nat>, n: nat, len: nat)
    requires EqualState(sets, used, nUsed, head0, head, chosen, cur) && n <= |chosen|
    requires forall s | 0 <= s < |chosen| :: cur[s] == At(head0, chosen[s]) + if s < n then len else 0
    ensures Tracks(sets, used, Advance(head0, Plan(chosen[..n], len)))
  {
    var p := Plan(chosen[..n], len);
    forall t
      ensures SameAt(head, Advance(head0, p), t)
    {
      AdvanceAt(head0, p, t);
      if t in chosen {
        var s :| 0 <= s < |chosen| && chosen[s] == t;
        assert t in chosen[..n] <==> s < n by {
          if s < n {
            assert chosen[..n][s] == t;
          }
        }
      } else {
        assert SameAt(head0, head, t);
      }
    }
    TracksExtensional(sets, used, head, Advance(head0, p));
  }

  /** Everything one equal split promises about its plan, at once: it is sound and not empty, no
    * served set is left with a cut tail, and its size is bounded. */
  lemma NextPlanPromises(sets: seq<SeqSet>, first: seq<nat>, used: seq<bool>, head: Heads,
                         nUbatch: nat, sequential: bool, nKeepTail: nat)
    requires |first| == |sets| && Tracks(sets, used, head) && forall i | 0 <= i < |sets| :: sets[i] != {}
    requires exists i :: 0 <= i < |used| && !used[i]
    requires nKeepTail == 0 || nKeepTail < nUbatch
    ensures Chosen(sets, first, used, nUbatch, sequential) != []
    ensures var chosen, p := Chosen(sets, first, used, nUbatch, sequential),
                             NextPlan(sets, first, used, head, nUbatch, sequential, nKeepTail);
            && PlanOk(sets, head, p)
            && p.sets != [] && p.sets <= chosen
            && (forall k | 0 <= k < |p.sets| :: TailKept(sets, head, p.sets[k], p.len, nKeepTail))
            && (nUbatch < |PlanIdxs(sets, head, p)| <==> nUbatch < |p.sets|)
            && (nUbatch < |PlanIdxs(sets, head, p)| <==>
                  nUbatch < |chosen| && AllMayBeCut(sets, head, chosen, nKeepTail))
            && |PlanIdxs(sets, head, p)| <= nUbatch + 1
  {
    LeadersProgress(sets, first, used, nUbatch, sequential);
    ChosenSound(sets, first, used, head, nUbatch, sequential);
    var chosen := Chosen(sets, first, used, nUbatch, sequential);
    PlanForOk(sets, head, chosen, nUbatch, nKeepTail);
    PlanForSize(sets, head, chosen, nUbatch, nKeepTail);
    PlanIdxsLength(sets, head, NextPlan(sets, first, used, head, nUbatch, sequential, nKeepTail));
  }

  /** The chosen sets are pairwise disjoint. */
  lemma ChosenDisjoint(sets: seq<SeqSet>, first: seq<nat>, used: seq<bool>, nUbatch: nat, sequential: bool)
    requires |used| == |first| == |sets|
    ensures Disjoint(Chosen(sets, first, used, nUbatch, sequential))
  {
    LeadersGood(sets, first, used, nUbatch, sequential);
    var leaders := Leaders(sets, first, used, nUbatch, sequential);
    var chosen := Chosen(sets, first, used, nUbatch, sequential);
    forall k, l | 0 <= k < l < |chosen| ensures chosen[k] !! chosen[l] {
      assert sets[leaders[k]] !! sets[leaders[l]];
    }
  }

  /** What keeps a caller on the safe side: a context with no more sequences than n_ubatch never gets a
    * micro-batch of more than n_ubatch tokens. */
  lemma FewSequencesKeepTheBound(sets: seq<SeqSet>, first: seq<nat>, used: seq<bool>, head: Heads,
                                 nUbatch: nat, sequential: bool, nKeepTail: nat, ids: SeqSet)
    requires |first| == |sets| && Tracks(sets, used, head)
    requires forall i | 0 <= i < |sets| :: sets[i] != {} && sets[i] <= ids
    requires exists i :: 0 <= i < |used| && !used[i]
    requires (nKeepTail == 0 || nKeepTail < nUbatch) && |ids| <= nUbatch
    ensures Chosen(sets, first, used, nUbatch, sequential) != []
    ensures var p := NextPlan(sets, first, used, head, nUbatch, sequential, nKeepTail);
            PlanOk(sets, head, p) && |PlanIdxs(sets, head, p)| <= nUbatch
  {
    NextPlanPromises(sets, first, used, head, nUbatch, sequential, nKeepTail);
    ChosenDisjoint(sets, first, used, nUbatch, sequential);
    var chosen := Chosen(sets, first, used, nUbatch, sequential);
    LeadersGood(sets, first, used, nUbatch, sequential);
    forall k | 0 <= k < |chosen| ensures chosen[k] != {} && chosen[k] <= ids {
      assert chosen[k] == sets[Leaders(sets, first, used, nUbatch, sequential)[k]];
    }
    DisjointSetsFit(chosen, ids);
  }

  /** The size bound is not n_ubatch itself: two sequences and n_ubatch = 1 give a micro-batch of
    * two tokens, because the scan stops only after it has one set too many. */
  lemma SizeBoundIsExceeded()
    ensures var sets: seq<SeqSet> := [{0}, {1}];
            && Tracks(sets, [false, false], map[])
            && Chosen(sets, [0, 1], [false, false], 1, false) == [{0}, {1}]
            && NextPlan(sets, [0, 1], [false, false], map[], 1, false, 0) == Plan([{0}, {1}], 1)
  {
    var sets: seq<SeqSet> := [{0}, {1}];
    NothingUsedTracks(sets);
    assert Unused(2) == [false, false];
    var leaders := LeadersFrom(sets, [0, 1], [false, false], 1, false, 2, [0] + [1]);
    assert Leaders(sets, [0, 1], [false, false], 1, false) == [0, 1] by {
      assert [] + [0] == [0] && [0] + [1] == [0, 1];
      assert Admissible(sets, [0, 1], [], 0, false);
      assert Admissible(sets, [0, 1], [0], 1, false);
      assert LeadersFrom(sets, [0, 1], [false, false], 1, false, 1, [0]) == [0, 1];
    }
    assert Chosen(sets, [0, 1], [false, false], 1, false) == [{0}, {1}];
    ChosenSound(sets, [0, 1], [false, false], map[], 1, false);
  }

  /** Why every token needs a sequence: two tokens without one would be chosen as two groups of the
    * same (empty) set, and both groups would take the same tokens. */
  lemma TokensWithoutSequenceCollide()
    ensures Chosen([{}, {}], [0, 0], [false, false], 2, false) == [{}, {}]
  {
    var sets: seq<SeqSet> := [{}, {}];
    assert [] + [0] == [0] && [0] + [1] == [0, 1];
    assert Admissible(sets, [0, 0], [], 0, false);
    assert Admissible(sets, [0, 0], [0], 1, false);
    assert LeadersFrom(sets, [0, 0], [false, false], 2, false, 2, [0, 1]) == [0, 1];
    assert LeadersFrom(sets, [0, 0], [false, false], 2, false, 1, [0]) == [0, 1];
    assert Leaders(sets, [0, 0], [false, false], 2, false) == [0, 1];
  }

  /** Group s of groups is the next len tokens of the s-th set. */
  ghost predicate Groups(sets: seq<SeqSet>, head: Heads, chosen: seq<SeqSet>, len: nat, groups: seq<seq<nat>>) {
    && |groups| == |chosen|
    && forall s | 0 <= s < |chosen| :: IsGroup(sets, head, chosen[s], len, groups[s])
  }

  ghost predicate IsGroup(sets: seq<SeqSet>, head: Heads, s: SeqSet, len: nat, group: seq<nat>) {
    At(head, s) + len <= |Members(sets, s)| && group == Members(sets, s)[At(head, s)..At(head, s) + len]
  }

  /** Every chosen set's index stands len tokens past its head. */
  ghost predicate AtLen(head: Heads, chosen: seq<SeqSet>, len: nat, cur: seq<nat>) {
    |cur| == |chosen| && forall s | 0 <= s < |chosen| :: cur[s] == At(head, chosen[s]) + len
  }

  lemma MemberUsed(sets: seq<SeqSet>, used: seq<bool>, head: Heads, s: SeqSet, k: nat)
    requires Tracks(sets, used, head) && k < |Members(sets, s)|
    ensures var i := Members(sets, s)[k]; i < |used| && (used[i] <==> k < At(head, s))
  {
    MembersAt(sets, s, k);
    assert UsedUpToHead(sets, used, head, Members(sets, s)[k]);
  }

  /** After k rounds there is still room for another token in every group. */
  ghost predicate MayContinue(nUbatch: nat, n: nat, k: nat) {
    k == 0 || (k + 1) * n <= nUbatch
  }

  /** Where the rounds stop: k rounds fit, and another one does not or a set is exhausted. */
  ghost predicate RoundsOver(nUbatch: nat, n: nat, k: nat, min: int) {
    1 <= k <= min && (k == 1 || k * n <= nUbatch) && ((k + 1) * n > nUbatch || k == min)
  }

  lemma RoundsGo(nUbatch: nat, n: nat, k: nat, min: int, size: nat)
    requires 0 < n && k < min && MayContinue(nUbatch, n, k) && size == k + 1
    ensures if (size + 1) * n > nUbatch then RoundsOver(nUbatch, n, k + 1, min) else MayContinue(nUbatch, n, k + 1)
  {
  }

  lemma RoundsStop(nUbatch: nat, n: nat, k: nat, min: int)
    requires 0 < n && 0 < min == k && MayContinue(nUbatch, n, k)
    ensures RoundsOver(nUbatch, n, k, min)
  {
    MultiplyOrder(k, k + 1, n);
  }

  lemma RoundsReached(nUbatch: nat, n: nat, k: nat, min: int)
    requires 0 < n && RoundsOver(nUbatch, n, k, min)
    ensures k == var cap := if nUbatch < n then 1 else nUbatch / n; if min < cap then min else cap
  {
    DivideBounds(nUbatch, n);
    var q := nUbatch / n;
    if nUbatch >= n {
      if k < q {
        MultiplyOrder(k + 1, q, n);
      } else if q < k {
        MultiplyOrder(q + 1, k, n);
      }
    } else if k > 1 {
      MultiplyOrder(1, k, n);
    }
  }

  lemma RoundsAre(sets: seq<SeqSet>, head: Heads, chosen: seq<SeqSet>, nUbatch: nat, k: nat)
    requires chosen != [] && RoundsOver(nUbatch, |chosen|, k, MinRemaining(sets, head, chosen))
    ensures k == Rounds(sets, head, chosen, nUbatch)
  {
    RoundsReached(nUbatch, |chosen|, k, MinRemaining(sets, head, chosen));
  }

  lemma SingleGroup(sets: seq<SeqSet>, head: Heads, chosen: seq<SeqSet>, len: nat, groups: seq<seq<nat>>)
    requires chosen != [] && groups != [] && IsGroup(sets, head, chosen[0], len, groups[0])
    ensures Groups(sets, head, chosen[..1], len, groups[..1])
  {
  }

  /** The plan once it is known how many sets may be cut. */
  lemma PlanForKept(sets: seq<SeqSet>, head: Heads, chosen: seq<SeqSet>, nUbatch: nat, nKeepTail: nat)
    requires chosen != [] && AllRemain(sets, head, chosen) && 0 < nKeepTail < nUbatch
    ensures 0 < Rounds(sets, head, chosen, nUbatch)
    ensures var len := Rounds(sets, head, chosen, nUbatch);
            var n := KeepCount(sets, head, chosen, len, nKeepTail);
            var r := Remaining(sets, head, chosen[0]);
            PlanFor(sets, head, chosen, nUbatch, nKeepTail) ==
            if n > 0 then Plan(chosen[..n], len) else Plan(chosen[..1], if r <= nUbatch then r else r - nKeepTail)
  {
    RoundsBounds(sets, head, chosen, nUbatch);
  }

  lemma GroupsPrefix(sets: seq<SeqSet>, head: Heads, chosen: seq<SeqSet>, len: nat, groups: seq<seq<nat>>, n: nat)
    requires Groups(sets, head, chosen, len, groups) && n <= |chosen|
    ensures Groups(sets, head, chosen[..n], len, groups[..n])
  {
    forall s | 0 <= s < n
      ensures IsGroup(sets, head, chosen[..n][s], len, groups[..n][s])
    {
      assert IsGroup(sets, head, chosen[s], len, groups[s]);
    }
  }

  lemma DisjointIffNoneShared(a: SeqSet, b: SeqSet)
    ensures a * b == {} <==> a !! b
  {
    assert forall x :: x in a && x in b <==> x in a * b;
  }

  lemma EvenGroups(len: nat, n: nat)
    requires 0 < n
    ensures (len * n) % n == 0 && (len * n) / n == len
  {
    var q, r := (len * n) / n, (len * n) % n;
    assert q * n + r == len * n;
    if q < len {
      MultiplyOrder(q + 1, len, n);
    } else if len < q {
      MultiplyOrder(len + 1, q, n);
    }
  }

  /** A group grows by the next token of its set. */
  lemma GroupGrows(sets: seq<SeqSet>, head: Heads, s: SeqSet, len: nat, group: seq<nat>)
    requires IsGroup(sets, head, s, len, group) && At(head, s) + len < |Members(sets, s)|
    ensures IsGroup(sets, head, s, len + 1, group + [Members(sets, s)[At(head, s) + len]])
  {
  }

  /** A group shrinks by its last token. */
  lemma GroupShrinks(sets: seq<SeqSet>, head: Heads, s: SeqSet, len: nat, group: seq<nat>)
    requires IsGroup(sets, head, s, len, group) && 0 < len
    ensures |group| == len && group[len - 1] == Members(sets, s)[At(head, s) + len - 1]
    ensures IsGroup(sets, head, s, len - 1, group[..len - 1])
  {
  }

  /** The state between rounds: every chosen set has given k tokens. */
  ghost predicate Rounded(sets: seq<SeqSet>, used: seq<bool>, nUsed: nat, head0: Heads, head: Heads,
                          chosen: seq<SeqSet>, k: nat, cur: seq<nat>, groups: seq<seq<nat>>)
  {
    && EqualState(sets, used, nUsed, head0, head, chosen, cur)
    && AtLen(head0, chosen, k, cur)
    && Groups(sets, head0, chosen, k, groups)
  }

  /** The state inside a round: the first s chosen sets have given k + 1 tokens, the others k. */
  ghost predicate MidRound(sets: seq<SeqSet>, used: seq<bool>, nUsed: nat, head0: Heads, head: Heads,
                           chosen: seq<SeqSet>, k: nat, s: nat, cur: seq<nat>, groups: seq<seq<nat>>)
  {
    && EqualState(sets, used, nUsed, head0, head, chosen, cur)
    && |groups| == |chosen|
    && (forall t | 0 <= t < |chosen| :: cur[t] == At(head0, chosen[t]) + if t < s then k + 1 else k)
    && forall t | 0 <= t < |chosen| :: IsGroup(sets, head0, chosen[t], if t < s then k + 1 else k, groups[t])
  }

  lemma EmptyGroups(sets: seq<SeqSet>, head: Heads, chosen: seq<SeqSet>, groups: seq<seq<nat>>)
    requires |groups| == |chosen| && forall s | 0 <= s < |groups| :: groups[s] == []
    requires AllRemain(sets, head, chosen)
    ensures Groups(sets, head, chosen, 0, groups)
  {
    forall s | 0 <= s < |chosen|
      ensures IsGroup(sets, head, chosen[s], 0, groups[s])
    {
      assert 0 < Remaining(sets, head, chosen[s]);
    }
  }

  lemma RoundStart(sets: seq<SeqSet>, used: seq<bool>, nUsed: nat, head0: Heads, head: Heads,
                   chosen: seq<SeqSet>, k: nat, cur: seq<nat>, groups: seq<seq<nat>>)
    requires Rounded(sets, used, nUsed, head0, head, chosen, k, cur, groups)
    ensures MidRound(sets, used, nUsed, head0, head, chosen, k, 0, cur, groups)
  {
  }

  lemma RoundEnd(sets: seq<SeqSet>, used: seq<bool>, nUsed: nat, head0: Heads, head: Heads,
                 chosen: seq<SeqSet>, k: nat, cur: seq<nat>, groups: seq<seq<nat>>)
    requires MidRound(sets, used, nUsed, head0, head, chosen, k, |chosen|, cur, groups)
    ensures Rounded(sets, used, nUsed, head0, head, chosen, k + 1, cur, groups)
  {
  }

  lemma RoundStep(sets: seq<SeqSet>, used: seq<bool>, nUsed: nat, head0: Heads, head: Heads,
                  chosen: seq<SeqSet>, k: nat, s: nat, cur: seq<nat>, groups: seq<seq<nat>>)
    requires MidRound(sets, used, nUsed, head0, head, chosen, k, s, cur, groups)
    requires s < |chosen| && k < Remaining(sets, head0, chosen[s])
    ensures |cur| == |groups| == |chosen| && cur[s] < |Members(sets, chosen[s])|
    ensures var i := Members(sets, chosen[s])[cur[s]];
            && i < |used|
            && MidRound(sets, used[i := true], nUsed + 1, head0, head[chosen[s] := cur[s] + 1], chosen, k, s + 1,
                        cur[s := cur[s] + 1], groups[s := groups[s] + [i]])
  {
    GroupGrows(sets, head0, chosen[s], k, groups[s]);
    UseOne(sets, used, nUsed, head0, head, chosen, cur, s);
  }

  /** The state while the first set is settled on its own. */
  ghost predicate FirstSet(sets: seq<SeqSet>, used: seq<bool>, nUsed: nat, head0: Heads, head: Heads,
                           chosen: seq<SeqSet>, cur0: seq<nat>, cur: seq<nat>, idxs: seq<nat>)
  {
    && chosen != []
    && EqualState(sets, used, nUsed, head0, head, chosen, cur)
    && |cur0| == |cur|
    && At(head0, chosen[0]) <= cur[0] && cur == cur0[0 := cur[0]]
    && IsGroup(sets, head0, chosen[0], cur[0] - At(head0, chosen[0]), idxs)
  }

  lemma FirstGrows(sets: seq<SeqSet>, used: seq<bool>, nUsed: nat, head0: Heads, head: Heads,
                   chosen: seq<SeqSet>, cur0: seq<nat>, cur: seq<nat>, idxs: seq<nat>)
    requires FirstSet(sets, used, nUsed, head0, head, chosen, cur0, cur, idxs)
    requires cur[0] < |Members(sets, chosen[0])|
    ensures var i := Members(sets, chosen[0])[cur[0]];
            && i < |used|
            && FirstSet(sets, used[i := true], nUsed + 1, head0, head[chosen[0] := cur[0] + 1], chosen, cur0,
                        cur[0 := cur[0] + 1], idxs + [i])
  {
    GroupGrows(sets, head0, chosen[0], cur[0] - At(head0, chosen[0]), idxs);
    UseOne(sets, used, nUsed, head0, head, chosen, cur, 0);
  }

  lemma FirstShrinks(sets: seq<SeqSet>, used: seq<bool>, nUsed: nat, head0: Heads, head: Heads,
                     chosen: seq<SeqSet>, cur0: seq<nat>, cur: seq<nat>, idxs: seq<nat>)
    requires FirstSet(sets, used, nUsed, head0, head, chosen, cur0, cur, idxs)
    requires At(head0, chosen[0]) < cur[0]
    ensures 0 < nUsed && idxs != []
    ensures var i := idxs[|idxs| - 1];
            && i < |used|
            && FirstSet(sets, used[i := false], nUsed - 1, head0, head[chosen[0] := cur[0] - 1], chosen, cur0,
                        cur[0 := cur[0] - 1], idxs[..|idxs| - 1])
  {
    GroupShrinks(sets, head0, chosen[0], cur[0] - At(head0, chosen[0]), idxs);
    GiveBackOne(sets, used, nUsed, head0, head, chosen, cur, 0);
  }

  /** The state while sets are deferred: sets below n keep kept tokens, those from s on still hold
    * len, the ones in between are back where they started. */
  ghost predicate Deferring(sets: seq<SeqSet>, used: seq<bool>, nUsed: nat, head0: Heads, head: Heads,
                            chosen: seq<SeqSet>, n: nat, kept: nat, s: nat, len: nat, cur: seq<nat>)
  {
    && EqualState(sets, used, nUsed, head0, head, chosen, cur)
    && forall t | 0 <= t < |chosen| ::
         cur[t] == At(head0, chosen[t]) + if t < n then kept else if t < s then 0 else len
  }

  lemma DeferStep(sets: seq<SeqSet>, used: seq<bool>, nUsed: nat, head0: Heads, head: Heads,
                  chosen: seq<SeqSet>, n: nat, kept: nat, s: nat, len: nat, cur: seq<nat>, group: seq<nat>)
    requires Deferring(sets, used, nUsed, head0, head, chosen, n, kept, s, len, cur)
    requires n <= s < |chosen| && IsGroup(sets, head0, chosen[s], len, group)
    ensures forall k | 0 <= k < |group| :: group[k] < |used|
    ensures |group| <= nUsed && |cur| == |chosen|
    ensures var v := At(head0, chosen[s]);
            Deferring(sets, Cleared(used, group), nUsed - |group|, head0, head[chosen[s] := v],
                      chosen, n, kept, s + 1, len, cur[s := v])
  {
    GiveBackGroup(sets, used, nUsed, head0, head, chosen, cur, s, At(head0, chosen[s]));
  }

  lemma DeferDone(sets: seq<SeqSet>, used: seq<bool>, nUsed: nat, head0: Heads, head: Heads,
                  chosen: seq<SeqSet>, n: nat, kept: nat, len: nat, cur: seq<nat>)
    requires Deferring(sets, used, nUsed, head0, head, chosen, n, kept, |chosen|, len, cur) && n <= |chosen|
    ensures Tracks(sets, used, Advance(head0, Plan(chosen[..n], kept))) && nUsed == CountTrue(used)
  {
    EqualStateDone(sets, used, nUsed, head0, head, chosen, cur, n, kept);
  }

  lemma RoundedDefers(sets: seq<SeqSet>, used: seq<bool>, nUsed: nat, head0: Heads, head: Heads,
                      chosen: seq<SeqSet>, n: nat, len: nat, cur: seq<nat>, groups: seq<seq<nat>>)
    requires Rounded(sets, used, nUsed, head0, head, chosen, len, cur, groups)
    ensures Deferring(sets, used, nUsed, head0, head, chosen, n, len, n, len, cur)
  {
  }

  lemma FirstDefers(sets: seq<SeqSet>, used: seq<bool>, nUsed: nat, head0: Heads, head: Heads,
                    chosen: seq<SeqSet>, len: nat, len': nat, cur0: seq<nat>, cur: seq<nat>, idxs: seq<nat>)
    requires FirstSet(sets, used, nUsed, head0, head, chosen, cur0, cur, idxs)
    requires AtLen(head0, chosen, len, cur0) && cur[0] == At(head0, chosen[0]) + len'
    ensures Deferring(sets, used, nUsed, head0, head, chosen, 1, len', 1, len, cur)
  {
  }
}
