/** The token side of a llama.cpp batch: which sequence set each token carries, the
  * per-set index lists that `init` builds, and the "heads" that say how far each list
  * has been handed out. Every split routine works on these lists.
  */
module BatchTokens {
  import opened Sequences

  /** A token's sequence set (a bitset in the program). */
  type SeqSet = set<nat>

  /** How many tokens of each sequence set have been handed out; absent means none. */
  type Heads = map<SeqSet, nat>

  function At(head: Heads, s: SeqSet): nat {
    if s in head then head[s] else 0
  }

  /** The indices below n whose token carries exactly the set s, in batch order. */
  function MembersBelow(sets: seq<SeqSet>, s: SeqSet, n: nat): seq<nat>
    requires n <= |sets|
  {
    if n == 0 then []
    else if sets[n - 1] == s then MembersBelow(sets, s, n - 1) + [n - 1]
    else MembersBelow(sets, s, n - 1)
  }

  /** The index list the program keeps for s. */
  function Members(sets: seq<SeqSet>, s: SeqSet): seq<nat> {
    MembersBelow(sets, s, |sets|)
  }

  /** The position of token i in the index list of its own set. */
  function Rank(sets: seq<SeqSet>, i: nat): nat
    requires i < |sets|
  {
    |MembersBelow(sets, sets[i], i)|
  }

  function Remaining(sets: seq<SeqSet>, head: Heads, s: SeqSet): int {
    |Members(sets, s)| - At(head, s)
  }

  /** The used flags say exactly that each set's list is used up to its head. */
  ghost predicate Tracks(sets: seq<SeqSet>, used: seq<bool>, head: Heads) {
    && |used| == |sets|
    && (forall s :: HeadInRange(sets, head, s))
    && (forall i | 0 <= i < |sets| :: UsedUpToHead(sets, used, head, i))
  }

  ghost predicate HeadInRange(sets: seq<SeqSet>, head: Heads, s: SeqSet) {
    At(head, s) <= |Members(sets, s)|
  }

  ghost predicate UsedUpToHead(sets: seq<SeqSet>, used: seq<bool>, head: Heads, i: nat)
    requires i < |sets| == |used|
  {
    used[i] <==> Rank(sets, i) < At(head, sets[i])
  }

  function CountBelow(used: seq<bool>, n: nat): nat
    requires n <= |used|
  {
    if n == 0 then 0 else CountBelow(used, n - 1) + if used[n - 1] then 1 else 0
  }

  function CountTrue(used: seq<bool>): nat {
    CountBelow(used, |used|)
  }

  lemma {:induction false} MembersBelowAt(sets: seq<SeqSet>, s: SeqSet, n: nat, k: nat)
    requires n <= |sets| && k < |MembersBelow(sets, s, n)|
    ensures var m := MembersBelow(sets, s, n)[k]; m < n && sets[m] == s && Rank(sets, m) == k
  {
    if sets[n - 1] == s && k == |MembersBelow(sets, s, n - 1)| {
    } else {
      MembersBelowAt(sets, s, n - 1, k);
    }
  }

  lemma {:induction false} MembersBelowGrows(sets: seq<SeqSet>, s: SeqSet, m: nat, n: nat)
    requires m <= n <= |sets|
    ensures MembersBelow(sets, s, m) <= MembersBelow(sets, s, n)
    decreases n
  {
    if m < n {
      MembersBelowGrows(sets, s, m, n - 1);
    }
  }

  /** The k-th entry of a set's list is a token of that set, and k is its rank. */
  lemma MembersAt(sets: seq<SeqSet>, s: SeqSet, k: nat)
    requires k < |Members(sets, s)|
    ensures var m := Members(sets, s)[k]; m < |sets| && sets[m] == s && Rank(sets, m) == k
  {
    MembersBelowAt(sets, s, |sets|, k);
  }

  /** Every token is found in its set's list at its rank. */
  lemma RankIndexes(sets: seq<SeqSet>, i: nat)
    requires i < |sets|
    ensures Rank(sets, i) < |Members(sets, sets[i])|
    ensures Members(sets, sets[i])[Rank(sets, i)] == i
  {
    MembersBelowGrows(sets, sets[i], i + 1, |sets|);
  }

  /** Index lists are strictly increasing, so rank order is batch order. */
  lemma MembersIncreasing(sets: seq<SeqSet>, s: SeqSet, k: nat, l: nat)
    requires k < l < |Members(sets, s)|
    ensures Members(sets, s)[k] < Members(sets, s)[l]
  {
    MembersAt(sets, s, k);
    MembersAt(sets, s, l);
    var a, b := Members(sets, s)[k], Members(sets, s)[l];
    if b <= a {
      MembersBelowGrows(sets, s, b, a);
    }
  }

  lemma {:induction false} CountBelowUpdate(used: seq<bool>, i: nat, n: nat)
    requires i < |used| && n <= |used|
    ensures used[i] ==> CountBelow(used[i := false], n) == CountBelow(used, n) - if i < n then 1 else 0
    ensures !used[i] ==> CountBelow(used[i := true], n) == CountBelow(used, n) + if i < n then 1 else 0
  {
    if n > 0 {
      CountBelowUpdate(used, i, n - 1);
    }
  }

  lemma CountTrueUpdate(used: seq<bool>, i: nat)
    requires i < |used|
    ensures used[i] ==> CountTrue(used[i := false]) == CountTrue(used) - 1
    ensures !used[i] ==> CountTrue(used[i := true]) == CountTrue(used) + 1
  {
    CountBelowUpdate(used, i, |used|);
  }

  lemma {:induction false} CountBelowAll(used: seq<bool>, n: nat)
    requires n <= |used|
    ensures CountBelow(used, n) <= n
    ensures CountBelow(used, n) == n <==> (forall i | 0 <= i < n :: used[i])
    ensures (forall i | 0 <= i < n :: !used[i]) ==> CountBelow(used, n) == 0
  {
    if n > 0 {
      CountBelowAll(used, n - 1);
    }
  }

  /** Using the next token of s moves the head of s, and only that. */
  lemma UseNext(sets: seq<SeqSet>, used: seq<bool>, head: Heads, s: SeqSet)
    requires Tracks(sets, used, head)
    requires At(head, s) < |Members(sets, s)|
    ensures var i := Members(sets, s)[At(head, s)];
            && i < |sets| && sets[i] == s && !used[i]
            && Tracks(sets, used[i := true], head[s := At(head, s) + 1])
            && CountTrue(used[i := true]) == CountTrue(used) + 1
  {
    var i := Members(sets, s)[At(head, s)];
    MembersAt(sets, s, At(head, s));
    assert UsedUpToHead(sets, used, head, i);
    CountTrueUpdate(used, i);
    var head', used' := head[s := At(head, s) + 1], used[i := true];
    forall t
      ensures HeadInRange(sets, head', t)
    {
      assert HeadInRange(sets, head, t);
    }
    forall j | 0 <= j < |sets|
      ensures UsedUpToHead(sets, used', head', j)
    {
      assert UsedUpToHead(sets, used, head, j);
      if sets[j] == s && Rank(sets, j) == At(head, s) {
        RankIndexes(sets, j);
      }
    }
  }

  /** Giving back the most recently used token of s is the exact inverse. */
  lemma GiveBackLast(sets: seq<SeqSet>, used: seq<bool>, head: Heads, s: SeqSet)
    requires Tracks(sets, used, head)
    requires 0 < At(head, s)
    ensures At(head, s) <= |Members(sets, s)|
    ensures var i := Members(sets, s)[At(head, s) - 1];
            && i < |sets| && sets[i] == s && used[i]
            && Tracks(sets, used[i := false], head[s := At(head, s) - 1])
            && CountTrue(used[i := false]) == CountTrue(used) - 1
  {
    var k := At(head, s) - 1;
    assert HeadInRange(sets, head, s);
    var i := Members(sets, s)[k];
    MembersAt(sets, s, k);
    assert UsedUpToHead(sets, used, head, i);
    CountTrueUpdate(used, i);
    var head', used' := head[s := k], used[i := false];
    forall t
      ensures HeadInRange(sets, head', t)
    {
      assert HeadInRange(sets, head, t);
    }
    forall j | 0 <= j < |sets|
      ensures UsedUpToHead(sets, used', head', j)
    {
      assert UsedUpToHead(sets, used, head, j);
      if sets[j] == s && Rank(sets, j) == k {
        RankIndexes(sets, j);
      }
    }
  }

  /** The used tokens of every sequence set are the first ones in batch order. */
  lemma UsedIsPrefixOfEachSet(sets: seq<SeqSet>, used: seq<bool>, head: Heads, i: nat, j: nat)
    requires Tracks(sets, used, head)
    requires i < j < |sets| && sets[i] == sets[j]
    ensures used[j] ==> used[i]
  {
    assert UsedUpToHead(sets, used, head, i) && UsedUpToHead(sets, used, head, j);
    MembersBelowGrows(sets, sets[i], i, j);
  }

  /** An unused token all of whose earlier set-mates are used is the next one of its set. */
  lemma FirstUnusedIsHead(sets: seq<SeqSet>, used: seq<bool>, head: Heads, i: nat)
    requires Tracks(sets, used, head)
    requires i < |sets| && !used[i]
    requires forall j | 0 <= j < i && sets[j] == sets[i] :: used[j]
    ensures At(head, sets[i]) < |Members(sets, sets[i])|
    ensures Members(sets, sets[i])[At(head, sets[i])] == i
  {
    var s := sets[i];
    RankIndexes(sets, i);
    assert UsedUpToHead(sets, used, head, i);
    if At(head, s) < Rank(sets, i) {
      var m := Members(sets, s)[At(head, s)];
      MembersAt(sets, s, At(head, s));
      assert UsedUpToHead(sets, used, head, m);
      MembersIncreasing(sets, s, At(head, s), Rank(sets, i));
    }
  }

  /** A set has unused tokens exactly when its head has not reached the end. */
  lemma UnusedIffRemaining(sets: seq<SeqSet>, used: seq<bool>, head: Heads, s: SeqSet)
    requires Tracks(sets, used, head)
    ensures At(head, s) < |Members(sets, s)| <==> exists i :: 0 <= i < |sets| && sets[i] == s && !used[i]
  {
    if At(head, s) < |Members(sets, s)| {
      MembersAt(sets, s, At(head, s));
      var i := Members(sets, s)[At(head, s)];
      assert UsedUpToHead(sets, used, head, i);
      assert sets[i] == s && !used[i];
    }
    forall i | 0 <= i < |sets| && sets[i] == s && !used[i]
      ensures At(head, s) < |Members(sets, s)|
    {
      assert UsedUpToHead(sets, used, head, i);
      RankIndexes(sets, i);
    }
  }

  /** n flags, none set. */
  function Unused(n: nat): (r: seq<bool>)
    ensures |r| == n && forall i | 0 <= i < n :: !r[i]
  {
    seq(n, i => false)
  }

  lemma {:induction false} NothingUsedTracks(sets: seq<SeqSet>)
    ensures Tracks(sets, Unused(|sets|), map[])
    ensures CountTrue(Unused(|sets|)) == 0
  {
    CountBelowAll(Unused(|sets|), |sets|);
  }

  // ---- what has been emitted so far -------------------------------------------------

  /** The emitted tokens that carry exactly the set s, in emission order. */
  function RestrictTo(sets: seq<SeqSet>, emitted: seq<nat>, s: SeqSet, n: nat): seq<nat>
    requires n <= |emitted|
  {
    if n == 0 then []
    else if emitted[n - 1] < |sets| && sets[emitted[n - 1]] == s then
      RestrictTo(sets, emitted, s, n - 1) + [emitted[n - 1]]
    else RestrictTo(sets, emitted, s, n - 1)
  }

  function Restrict(sets: seq<SeqSet>, emitted: seq<nat>, s: SeqSet): seq<nat> {
    RestrictTo(sets, emitted, s, |emitted|)
  }

  /** Per set, the emission so far is the list up to its head: nothing twice, nothing skipped,
    * nothing out of order. */
  ghost predicate Ledger(sets: seq<SeqSet>, head: Heads, emitted: seq<nat>) {
    && (forall k | 0 <= k < |emitted| :: emitted[k] < |sets|)
    && (forall s :: EmittedToHead(sets, head, emitted, s))
  }

  ghost predicate EmittedToHead(sets: seq<SeqSet>, head: Heads, emitted: seq<nat>, s: SeqSet) {
    && At(head, s) <= |Members(sets, s)|
    && Restrict(sets, emitted, s) == Members(sets, s)[..At(head, s)]
  }

  lemma {:induction false} RestrictFront(sets: seq<SeqSet>, a: seq<nat>, b: seq<nat>, s: SeqSet, n: nat)
    requires n <= |a|
    ensures RestrictTo(sets, a + b, s, n) == RestrictTo(sets, a, s, n)
  {
    if n > 0 {
      RestrictFront(sets, a, b, s, n - 1);
    }
  }

  lemma {:induction false} RestrictBack(sets: seq<SeqSet>, a: seq<nat>, b: seq<nat>, s: SeqSet, n: nat)
    requires n <= |b|
    ensures RestrictTo(sets, a + b, s, |a| + n) == Restrict(sets, a, s) + RestrictTo(sets, b, s, n)
  {
    if n == 0 {
      RestrictFront(sets, a, b, s, |a|);
    } else {
      RestrictBack(sets, a, b, s, n - 1);
      assert (a + b)[|a| + n - 1] == b[n - 1];
    }
  }

  lemma RestrictAppend(sets: seq<SeqSet>, a: seq<nat>, b: seq<nat>, s: SeqSet)
    ensures Restrict(sets, a + b, s) == Restrict(sets, a, s) + Restrict(sets, b, s)
  {
    RestrictBack(sets, a, b, s, |b|);
  }

  lemma {:induction false} RestrictGroupTo(sets: seq<SeqSet>, group: seq<nat>, t: SeqSet, s: SeqSet, n: nat)
    requires n <= |group|
    requires forall k | 0 <= k < |group| :: group[k] < |sets| && sets[group[k]] == t
    ensures RestrictTo(sets, group, s, n) == if s == t then group[..n] else []
  {
    if n > 0 {
      RestrictGroupTo(sets, group, t, s, n - 1);
    }
  }

  /** Tokens of one set restrict to all of themselves or to nothing. */
  lemma RestrictGroup(sets: seq<SeqSet>, group: seq<nat>, t: SeqSet, s: SeqSet)
    requires forall k | 0 <= k < |group| :: group[k] < |sets| && sets[group[k]] == t
    ensures Restrict(sets, group, s) == if s == t then group else []
  {
    RestrictGroupTo(sets, group, t, s, |group|);
    assert group[..|group|] == group;
  }

  lemma {:induction false} RestrictMembershipTo(sets: seq<SeqSet>, emitted: seq<nat>, i: nat, n: nat)
    requires i < |sets| && n <= |emitted|
    ensures multiset(RestrictTo(sets, emitted, sets[i], n))[i] == multiset(emitted[..n])[i]
  {
    if n > 0 {
      RestrictMembershipTo(sets, emitted, i, n - 1);
      assert emitted[..n] == emitted[..n - 1] + [emitted[n - 1]];
    }
  }

  lemma RestrictMembership(sets: seq<SeqSet>, emitted: seq<nat>, i: nat)
    requires i < |sets|
    ensures multiset(Restrict(sets, emitted, sets[i]))[i] == multiset(emitted)[i]
  {
    RestrictMembershipTo(sets, emitted, i, |emitted|);
    assert emitted[..|emitted|] == emitted;
  }

  lemma {:induction false} MembersBelowCount(sets: seq<SeqSet>, s: SeqSet, n: nat, i: nat)
    requires n <= |sets| && i < |sets|
    ensures multiset(MembersBelow(sets, s, n))[i] == if i < n && sets[i] == s then 1 else 0
  {
    if n > 0 {
      MembersBelowCount(sets, s, n - 1, i);
    }
  }

  lemma NextTokens(sets: seq<SeqSet>, s: SeqSet, h: nat, len: nat, group: seq<nat>, t: SeqSet)
    requires h + len <= |Members(sets, s)| && group == Members(sets, s)[h..h + len]
    ensures forall k | 0 <= k < len :: group[k] < |sets|
    ensures Restrict(sets, group, t) == if t == s then group else []
  {
    forall k | 0 <= k < |group|
      ensures group[k] < |sets| && sets[group[k]] == s
    {
      MembersAt(sets, s, h + k);
    }
    RestrictGroup(sets, group, s, t);
  }

  lemma PrefixGrows(xs: seq<nat>, h: nat, len: nat)
    requires h + len <= |xs|
    ensures xs[..h] + xs[h..h + len] == xs[..h + len]
  {
  }

  lemma LedgerExtendsAt(sets: seq<SeqSet>, head: Heads, emitted: seq<nat>, s: SeqSet, len: nat, group: seq<nat>,
                        t: SeqSet)
    requires EmittedToHead(sets, head, emitted, t)
    requires At(head, s) + len <= |Members(sets, s)| && group == Members(sets, s)[At(head, s)..At(head, s) + len]
    ensures EmittedToHead(sets, head[s := At(head, s) + len], emitted + group, t)
  {
    var head' := head[s := At(head, s) + len];
    NextTokens(sets, s, At(head, s), len, group, t);
    RestrictAppend(sets, emitted, group, t);
    if t == s {
      PrefixGrows(Members(sets, s), At(head, s), len);
      assert At(head', t) == At(head, s) + len;
    } else {
      assert At(head', t) == At(head, t);
      assert Restrict(sets, emitted, t) + [] == Restrict(sets, emitted, t);
    }
  }

  /** Handing out the next len tokens of s keeps the ledger. */
  lemma LedgerExtends(sets: seq<SeqSet>, head: Heads, emitted: seq<nat>, s: SeqSet, len: nat)
    requires Ledger(sets, head, emitted)
    requires At(head, s) + len <= |Members(sets, s)|
    ensures Ledger(sets, head[s := At(head, s) + len],
                   emitted + Members(sets, s)[At(head, s)..At(head, s) + len])
  {
    var group := Members(sets, s)[At(head, s)..At(head, s) + len];
    var head', given := head[s := At(head, s) + len], emitted + group;
    NextTokens(sets, s, At(head, s), len, group, s);
    forall t
      ensures EmittedToHead(sets, head', given, t)
    {
      assert EmittedToHead(sets, head, emitted, t);
      LedgerExtendsAt(sets, head, emitted, s, len, group, t);
    }
  }

  lemma {:induction false} EmptyLedger(sets: seq<SeqSet>)
    ensures Ledger(sets, map[], [])
  {
  }

  /** In a list holding x once, at position r, a prefix holds x exactly when it reaches past r. */
  lemma PrefixCount(xs: seq<nat>, r: nat, h: nat)
    requires r < |xs| && h <= |xs| && multiset(xs)[xs[r]] == 1
    ensures multiset(xs[..h])[xs[r]] == if r < h then 1 else 0
  {
    var x := xs[r];
    assert xs == xs[..h] + xs[h..];
    assert multiset(xs)[x] == multiset(xs[..h])[x] + multiset(xs[h..])[x];
    if r < h {
      assert x == xs[..h][r];
      assert x in multiset(xs[..h]);
    } else {
      assert x == xs[h..][r - h];
      assert x in multiset(xs[h..]);
    }
  }

  /** A token is emitted exactly as often as it is used: once or not at all. */
  lemma LedgerCounts(sets: seq<SeqSet>, used: seq<bool>, head: Heads, emitted: seq<nat>, i: nat)
    requires Tracks(sets, used, head) && Ledger(sets, head, emitted) && i < |sets|
    ensures multiset(emitted)[i] == if used[i] then 1 else 0
  {
    var s := sets[i];
    RestrictMembership(sets, emitted, i);
    assert EmittedToHead(sets, head, emitted, s) && UsedUpToHead(sets, used, head, i);
    MembersBelowCount(sets, s, |sets|, i);
    RankIndexes(sets, i);
    PrefixCount(Members(sets, s), Rank(sets, i), At(head, s));
  }

  lemma TwoOccurrences(xs: seq<nat>, p: nat, q: nat)
    requires p < q < |xs| && xs[p] == xs[q]
    ensures 2 <= multiset(xs)[xs[p]]
  {
    var x := xs[p];
    assert xs == xs[..q] + xs[q..];
    assert xs[..q][p] == x && xs[q..][0] == x;
    assert multiset(xs)[x] == multiset(xs[..q])[x] + multiset(xs[q..])[x];
    assert x in multiset(xs[..q]) && x in multiset(xs[q..]);
  }

  lemma CountAtMostOne(xs: seq<nat>)
    requires forall x | x in xs :: multiset(xs)[x] <= 1
    ensures NoDuplicates(xs)
  {
    forall p, q | 0 <= p < q < |xs|
      ensures xs[p] != xs[q]
    {
      if xs[p] == xs[q] {
        TwoOccurrences(xs, p, q);
      }
    }
  }

  /** Over any sequence of split calls: no token twice, and emitted means used. */
  lemma EmittedExactlyTheUsed(sets: seq<SeqSet>, used: seq<bool>, head: Heads, emitted: seq<nat>)
    requires Tracks(sets, used, head) && Ledger(sets, head, emitted)
    ensures NoDuplicates(emitted)
    ensures forall i | 0 <= i < |sets| :: i in emitted <==> used[i]
  {
    forall x | x in emitted
      ensures multiset(emitted)[x] <= 1
    {
      LedgerCounts(sets, used, head, emitted, x);
    }
    CountAtMostOne(emitted);
    forall i | 0 <= i < |sets|
      ensures i in emitted <==> used[i]
    {
      LedgerCounts(sets, used, head, emitted, i);
      assert i in emitted <==> i in multiset(emitted);
    }
  }

  lemma {:induction false} RestrictContains(sets: seq<SeqSet>, emitted: seq<nat>, p: nat, s: SeqSet, n: nat)
    returns (a: nat)
    requires p < n <= |emitted| && emitted[p] < |sets| && sets[emitted[p]] == s
    ensures a < |RestrictTo(sets, emitted, s, n)| && RestrictTo(sets, emitted, s, n)[a] == emitted[p]
  {
    if p == n - 1 {
      a := |RestrictTo(sets, emitted, s, n)| - 1;
    } else {
      a := RestrictContains(sets, emitted, p, s, n - 1);
    }
  }

  /** Within one set, emission order is batch order. */
  lemma EmittedInBatchOrder(sets: seq<SeqSet>, head: Heads, emitted: seq<nat>, p: nat, q: nat)
    requires Ledger(sets, head, emitted)
    requires p < q < |emitted| && sets[emitted[p]] == sets[emitted[q]]
    ensures emitted[p] < emitted[q]
  {
    var s := sets[emitted[p]];
    var front, back := emitted[..p + 1], emitted[p + 1..];
    assert emitted == front + back;
    RestrictAppend(sets, front, back, s);
    var a := RestrictContains(sets, front, p, s, |front|);
    var b := RestrictContains(sets, back, q - p - 1, s, |back|);
    var c := |Restrict(sets, front, s)| + b;
    assert EmittedToHead(sets, head, emitted, s);
    assert Restrict(sets, emitted, s)[a] == emitted[p];
    assert Restrict(sets, emitted, s)[c] == back[q - p - 1];
    MembersIncreasing(sets, s, a, c);
  }
}
