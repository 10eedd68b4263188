/** The diversity heuristic that picks a node's links (Algorithm 4 of Malkov and
    Yashunin), and what it keeps and drops. */
module Neighbors {
  import opened Candidates

  /** Distance between two stored points. */
  type Between = (nat, nat) -> real

  /** Candidate p is covered when some nearer uncovered candidate is strictly closer to it
      than the base point is. This refers to no limit on how many are kept. */
  predicate Covered(between: Between, cands: seq<Cand>, p: nat)
    requires p < |cands|
  {
    exists r: nat :: r < p && !Covered(between, cands, r)
                     && between(cands[p].id, cands[r].id) < cands[p].dist
  }

  predicate Increasing(s: seq<nat>) {
    forall i, j :: 0 <= i < j < |s| ==> s[i] < s[j]
  }

  predicate Below(s: seq<nat>, n: nat) {
    forall i :: 0 <= i < |s| ==> s[i] < n
  }

  /** Positions below n of the uncovered (flag false) or covered (flag true) candidates. */
  function Positions(between: Between, cands: seq<Cand>, n: nat, flag: bool): (s: seq<nat>)
    requires n <= |cands|
    ensures Increasing(s) && Below(s, n) && |s| <= n
  {
    if n == 0 then []
    else
      var s := Positions(between, cands, n - 1, flag);
      if Covered(between, cands, n - 1) == flag then s + [n - 1] else s
  }

  /** The choice in closed form: everything when there is no need to choose; otherwise the
      uncovered candidates first, then the nearest covered ones to fill up. */
  function Choose(between: Between, cands: seq<Cand>, m: nat): (s: seq<nat>)
    ensures Below(s, |cands|)
  {
    if |cands| <= m then seq(|cands|, i => i)
    else
      PositionsPartition(between, cands, |cands|);
      var kept := Positions(between, cands, |cands|, false);
      if |kept| >= m then kept[..m]
      else kept + Positions(between, cands, |cands|, true)[..m - |kept|]
  }

  function IdsAt(cands: seq<Cand>, ps: seq<nat>): (ids: seq<nat>)
    requires Below(ps, |cands|)
    ensures |ids| == |ps| && forall i :: 0 <= i < |ps| ==> ids[i] == cands[ps[i]].id
  {
    seq(|ps|, i requires 0 <= i < |ps| => cands[ps[i]].id)
  }

  lemma {:induction false} PositionsMeaning(between: Between, cands: seq<Cand>, n: nat, flag: bool)
    requires n <= |cands|
    ensures forall p: nat :: p in Positions(between, cands, n, flag) <==> p < n && Covered(between, cands, p) == flag
  {
    if n > 0 {
      PositionsMeaning(between, cands, n - 1, flag);
    }
  }

  lemma {:induction false} PositionsPartition(between: Between, cands: seq<Cand>, n: nat)
    requires n <= |cands|
    ensures |Positions(between, cands, n, false)| + |Positions(between, cands, n, true)| == n
  {
    if n > 0 {
      PositionsPartition(between, cands, n - 1);
    }
  }

  lemma {:induction false} PositionsPrefix(between: Between, cands: seq<Cand>, n: nat, n': nat, flag: bool)
    requires n <= n' <= |cands|
    ensures Positions(between, cands, n, flag) <= Positions(between, cands, n', flag)
    decreases n'
  {
    if n < n' {
      PositionsPrefix(between, cands, n, n' - 1, flag);
    }
  }

  /** The scan for a kept candidate that covers c. */
  method Scan(between: Between, c: Cand, kept: seq<nat>) returns (keep: bool)
    ensures keep <==> forall r :: 0 <= r < |kept| ==> between(c.id, kept[r]) >= c.dist
  {
    keep := true;
    var j := 0;
    while j < |kept| && keep
      invariant j <= |kept|
      invariant keep <==> forall r :: 0 <= r < j ==> between(c.id, kept[r]) >= c.dist
    {
      if between(c.id, kept[j]) < c.dist {
        keep := false;
      }
      j := j + 1;
    }
  }

  /** The first n candidates divided into uncovered and covered ones. */
  ghost predicate Split(between: Between, cands: seq<Cand>, n: nat, kept: seq<nat>, discarded: seq<nat>)
    requires n <= |cands|
  {
    && kept == IdsAt(cands, Positions(between, cands, n, false))
    && discarded == IdsAt(cands, Positions(between, cands, n, true))
  }

  /** The first pass of selectNeighborsHeuristic, which stops once m candidates are kept. */
  method FirstPass(between: Between, cands: seq<Cand>, m: nat)
    returns (kept: seq<nat>, discarded: seq<nat>, ghost seen: nat)
    ensures seen <= |cands| && |kept| <= m
    ensures seen < |cands| ==> |kept| == m
    ensures Split(between, cands, seen, kept, discarded)
  {
    kept, discarded := [], [];
    var i := 0;
    while i < |cands| && |kept| < m
      invariant i <= |cands| && |kept| <= m
      invariant Split(between, cands, i, kept, discarded)
    {
      var keep := Scan(between, cands[i], kept);
      PassStep(between, cands, i, kept, discarded);
      if keep {
        kept := kept + [cands[i].id];
      } else {
        discarded := discarded + [cands[i].id];
      }
      i := i + 1;
    }
    seen := i;
  }

  /** selectNeighborsHeuristic, with its early exits, computes the closed form on the
      ascending listing of the queue. */
  method SelectNeighbors(between: Between, top: set<Cand>, m: nat)
    returns (kept: seq<nat>, ghost cands: seq<Cand>)
    ensures SortingOf(cands, top) && |cands| == |top|
    ensures kept == IdsAt(cands, Choose(between, cands, m))
  {
    var sorted := Sort(top);
    cands := sorted;
    kept := [];
    if |sorted| <= m {
      for i := 0 to |sorted|
        invariant |kept| == i && forall j :: 0 <= j < i ==> kept[j] == sorted[j].id
      {
        kept := kept + [sorted[i].id];
      }
      return;
    }
    var discarded: seq<nat>;
    ghost var seen: nat;
    kept, discarded, seen := FirstPass(between, sorted, m);
    ghost var first := kept;
    var d: nat;
    kept, d := Refill(kept, discarded, m);
    PassesMakeChoice(between, cands, m, seen, d);
    IdsConcat(cands, Positions(between, cands, seen, false), Positions(between, cands, seen, true), d);
  }

  /** The second pass: discarded candidates fill the list up, nearest first. */
  method Refill(first: seq<nat>, discarded: seq<nat>, m: nat) returns (kept: seq<nat>, d: nat)
    requires |first| <= m
    ensures d <= |discarded| && kept == first + discarded[..d] && |kept| <= m
    ensures d == |discarded| || |kept| == m
  {
    kept := first;
    d := 0;
    while d < |discarded| && |kept| < m
      invariant d <= |discarded| && |kept| <= m
      invariant kept == first + discarded[..d]
    {
      kept := kept + [discarded[d]];
      d := d + 1;
    }
  }

  lemma IdsConcat(cands: seq<Cand>, s: seq<nat>, t: seq<nat>, d: nat)
    requires Below(s, |cands|) && Below(t, |cands|) && d <= |t|
    ensures IdsAt(cands, s + t[..d]) == IdsAt(cands, s) + IdsAt(cands, t)[..d]
  {
  }

  lemma PassesMakeChoice(between: Between, cands: seq<Cand>, m: nat, seen: nat, d: nat)
    requires m < |cands| && seen <= |cands|
    requires var kept, discarded := Positions(between, cands, seen, false), Positions(between, cands, seen, true);
      && |kept| <= m && (seen < |cands| ==> |kept| == m)
      && d <= |discarded| && (d == |discarded| || |kept| + d >= m) && (d > 0 ==> |kept| + d <= m)
    ensures var kept, discarded := Positions(between, cands, seen, false), Positions(between, cands, seen, true);
      Choose(between, cands, m) == kept + discarded[..d]
  {
    var kept, discarded := Positions(between, cands, seen, false), Positions(between, cands, seen, true);
    var all := Positions(between, cands, |cands|, false);
    PositionsPrefix(between, cands, seen, |cands|, false);
    PositionsPartition(between, cands, |cands|);
    if |kept| == m {
      PrefixOfLength(kept, all, m);
      assert d == 0 && kept + discarded[..0] == kept;
    } else {
      assert seen == |cands| && d == m - |kept|;
    }
  }

  lemma PrefixOfLength(s: seq<nat>, t: seq<nat>, m: nat)
    requires s <= t && |s| == m
    ensures |t| >= m && t[..m] == s
  {
  }

  lemma PassStep(between: Between, cands: seq<Cand>, i: nat, kept: seq<nat>, discarded: seq<nat>)
    requires i < |cands|
    requires Split(between, cands, i, kept, discarded)
    ensures
      var keep := forall r :: 0 <= r < |kept| ==> between(cands[i].id, kept[r]) >= cands[i].dist;
      if keep then Split(between, cands, i + 1, kept + [cands[i].id], discarded)
      else Split(between, cands, i + 1, kept, discarded + [cands[i].id])
  {
    KeptDecideCover(between, cands, i, kept);
    ExtendPositions(between, cands, i, false);
    ExtendPositions(between, cands, i, true);
  }

  lemma ExtendPositions(between: Between, cands: seq<Cand>, i: nat, flag: bool)
    requires i < |cands|
    ensures
      IdsAt(cands, Positions(between, cands, i + 1, flag))
      == IdsAt(cands, Positions(between, cands, i, flag))
         + if Covered(between, cands, i) == flag then [cands[i].id] else []
  {
    var s := Positions(between, cands, i, flag);
    if Covered(between, cands, i) == flag {
      assert Positions(between, cands, i + 1, flag) == s + [i];
    }
  }

  lemma KeptDecideCover(between: Between, cands: seq<Cand>, i: nat, kept: seq<nat>)
    requires i < |cands| && kept == IdsAt(cands, Positions(between, cands, i, false))
    ensures Covered(between, cands, i)
       <==> exists r :: 0 <= r < |kept| && between(cands[i].id, kept[r]) < cands[i].dist
  {
    var ks := Positions(between, cands, i, false);
    PositionsMeaning(between, cands, i, false);
    if Covered(between, cands, i) {
      var p: nat :| p < i && !Covered(between, cands, p) && between(cands[i].id, cands[p].id) < cands[i].dist;
      assert p in ks;
      var k :| 0 <= k < |ks| && ks[k] == p;
      assert kept[k] == cands[p].id;
    }
    if r :| 0 <= r < |kept| && between(cands[i].id, kept[r]) < cands[i].dist {
      assert ks[r] in ks;
    }
  }

  /** Exactly min(candidates, m) distinct candidates are chosen, the nearest one first. */
  lemma ChooseCounts(between: Between, cands: seq<Cand>, m: nat)
    ensures var s := Choose(between, cands, m);
      && |s| == (if |cands| <= m then |cands| else m)
      && (forall i, j :: 0 <= i < j < |s| ==> s[i] != s[j])
      && (s != [] ==> s[0] == 0)
  {
    if |cands| > m {
      KeptAndCovered(between, cands);
      JoinDistinct(Positions(between, cands, |cands|, false), Positions(between, cands, |cands|, true), m);
    }
  }

  /** The nearest candidate is uncovered; the others divide up. */
  lemma KeptAndCovered(between: Between, cands: seq<Cand>)
    requires cands != []
    ensures var kept, rest := Positions(between, cands, |cands|, false), Positions(between, cands, |cands|, true);
      && 0 in kept && |kept| + |rest| == |cands| && forall p: nat :: p in kept ==> p !in rest
  {
    PositionsPartition(between, cands, |cands|);
    PositionsMeaning(between, cands, |cands|, false);
    PositionsMeaning(between, cands, |cands|, true);
    assert !Covered(between, cands, 0);
  }

  lemma JoinDistinct(kept: seq<nat>, rest: seq<nat>, m: nat)
    requires Increasing(kept) && Increasing(rest) && |kept| + |rest| > m && 0 in kept
    requires forall p: nat :: p in kept ==> p !in rest
    ensures var s := if |kept| >= m then kept[..m] else kept + rest[..m - |kept|];
      && |s| == m
      && (forall i, j :: 0 <= i < j < |s| ==> s[i] != s[j])
      && (s != [] ==> s[0] == 0)
  {
    var z :| 0 <= z < |kept| && kept[z] == 0;
    assert kept[0] == 0;
    forall i, j | 0 <= i < |kept| && 0 <= j < |rest| ensures kept[i] != rest[j] {
      assert kept[i] in kept && rest[j] in rest;
    }
  }

  /** Any two heuristically kept candidates: the later one is at least as far from the
      earlier one as from the base point. */
  lemma KeptAreDiverse(between: Between, cands: seq<Cand>, i: nat, j: nat)
    requires var kept := Positions(between, cands, |cands|, false); i < j < |kept|
    ensures var kept := Positions(between, cands, |cands|, false);
      && kept[i] in kept && kept[j] in kept
      && between(cands[kept[j]].id, cands[kept[i]].id) >= cands[kept[j]].dist
  {
    var kept := Positions(between, cands, |cands|, false);
    PositionsMeaning(between, cands, |cands|, false);
    assert kept[i] in kept && kept[j] in kept;
  }

  /** Every candidate the pass rejected has a chosen witness strictly closer to it than the
      base point is. The pass examines every position up to where the m-th candidate is kept. */
  lemma RejectedHaveWitness(between: Between, cands: seq<Cand>, m: nat, p: nat)
    requires m < |cands| && p < |cands| && Covered(between, cands, p)
    requires var kept := Positions(between, cands, |cands|, false);
             |kept| >= m ==> m > 0 && p < kept[m - 1]
    ensures exists r: nat :: r < p && r in Choose(between, cands, m) && !Covered(between, cands, r)
                             && between(cands[p].id, cands[r].id) < cands[p].dist
  {
    var kept := Positions(between, cands, |cands|, false);
    PositionsMeaning(between, cands, |cands|, false);
    var r: nat :| r < p && !Covered(between, cands, r) && between(cands[p].id, cands[r].id) < cands[p].dist;
    assert r in kept;
    var k :| 0 <= k < |kept| && kept[k] == r;
    if |kept| >= m {
      assert k < m;
      assert r == kept[..m][k];
    }
  }

  /** The candidate a full node gives up: the farthest covered one, or the farthest of all
      when none is covered. */
  function Dropped(between: Between, cands: seq<Cand>): (p: nat)
    requires cands != []
    ensures p < |cands|
  {
    var covered := Positions(between, cands, |cands|, true);
    if covered == [] then |cands| - 1
    else
      assert covered[|covered| - 1] in covered;
      covered[|covered| - 1]
  }

  /** Choosing m out of m + 1 keeps all but exactly that one. */
  lemma PruneDropsOne(between: Between, cands: seq<Cand>, m: nat)
    requires |cands| == m + 1
    ensures forall p: nat :: p in Choose(between, cands, m)
                             <==> p < |cands| && p != Dropped(between, cands)
  {
    var n := |cands|;
    var kept, covered := Positions(between, cands, n, false), Positions(between, cands, n, true);
    PositionsPartition(between, cands, n);
    PositionsMeaning(between, cands, n, false);
    PositionsMeaning(between, cands, n, true);
    AllButLast(kept, covered, n);
  }

  lemma AllButLast(kept: seq<nat>, covered: seq<nat>, n: nat)
    requires Increasing(kept) && Below(kept, n) && Increasing(covered) && Below(covered, n)
    requires n >= 1 && |kept| + |covered| == n
    requires forall p: nat :: p < n ==> (p in kept <==> p !in covered)
    ensures var choice := if |kept| >= n - 1 then kept[..n - 1] else kept + covered[..n - 1 - |kept|];
            var dropped := if covered == [] then n - 1 else covered[|covered| - 1];
            forall p: nat :: p in choice <==> p < n && p != dropped
  {
    if covered == [] {
      IncreasingBelow(kept, n);
      var choice := kept[..n - 1];
      forall p: nat | p < n - 1 ensures p in choice {
        assert choice[p] == kept[p];
      }
    } else {
      ButLast(covered);
      assert covered[|covered| - 1] in covered;
      if |covered| == 1 {
        assert kept[..n - 1] == kept;
      }
    }
  }

  lemma ButLast(s: seq<nat>)
    requires Increasing(s) && s != []
    ensures forall p: nat :: p in s[..|s| - 1] <==> p in s && p != s[|s| - 1]
  {
    forall p: nat ensures p in s[..|s| - 1] <==> p in s && p != s[|s| - 1] {
      if p in s && p != s[|s| - 1] {
        var i :| 0 <= i < |s| && s[i] == p;
        assert s[..|s| - 1][i] == p;
      }
      if p in s[..|s| - 1] {
        var i :| 0 <= i < |s| - 1 && s[..|s| - 1][i] == p;
        assert s[i] < s[|s| - 1];
      }
    }
  }

  /** n increasing positions below n are all of them, in place. */
  lemma {:induction false} IncreasingBelow(s: seq<nat>, n: nat)
    requires Increasing(s) && |s| == n && Below(s, n)
    ensures forall i :: 0 <= i < n ==> s[i] == i
    decreases n
  {
    if n > 0 {
      var t := s[..n - 1];
      assert Below(t, n - 1) by {
        assert forall i :: 0 <= i < n - 1 ==> s[i] < s[n - 1];
      }
      IncreasingBelow(t, n - 1);
      forall i | 0 <= i < n - 1 ensures s[i] == i {
        assert t[i] == s[i];
      }
      IncreasingLast(s, n);
    }
  }

  lemma IncreasingLast(s: seq<nat>, n: nat)
    requires n > 0 && |s| == n && Increasing(s) && s[n - 1] < n
    requires forall i :: 0 <= i < n - 1 ==> s[i] == i
    ensures s[n - 1] == n - 1
  {
    if n > 1 {
      assert s[n - 2] < s[n - 1];
    }
  }
}
