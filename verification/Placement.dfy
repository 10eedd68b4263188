/** What an insertion leaves behind, layer by layer, in terms of distances alone: what the search
    for the new node found, which of it the heuristic picked, and what the picked nodes made of
    their lists. */
module Placement {
  import opened Candidates
  import opened Neighbors
  import opened Beam
  import opened LayerGraph
  import opened GraphStore
  import opened GraphSearch
  import opened Insertion

  /** x comes before y in the order of distance from base; the lower id decides between equals. */
  ghost predicate Nearer(d: Between, base: nat, x: nat, y: nat) {
    d(base, x) < d(base, y) || (d(base, x) == d(base, y) && x < y)
  }

  ghost predicate NearestFirst(d: Between, base: nat, s: seq<nat>) {
    forall i, j :: 0 <= i < j < |s| ==> Nearer(d, base, s[i], s[j])
  }

  /** Some kept node is nearer to the base than x is, and closer to x than the base is. */
  ghost predicate CoveredBy(d: Between, base: nat, kept: seq<nat>, x: nat) {
    exists i :: 0 <= i < |kept| && Nearer(d, base, kept[i], x) && d(x, kept[i]) < d(base, x)
  }

  /** The first k of the picked nodes are picked for diversity: of any two the farther is no closer to
      the nearer than to the base. The others fill up; they are covered by those. Whatever is not
      picked is covered as well and farther than all that fill up, or comes after m diverse ones. */
  ghost predicate Division(d: Between, base: nat, found: set<nat>, m: nat, s: seq<nat>, k: nat)
    requires k <= |s|
  {
    && NearestFirst(d, base, s[..k]) && NearestFirst(d, base, s[k..])
    && (forall i, j :: 0 <= i < j < k ==> d(s[j], s[i]) >= d(base, s[j]))
    && (forall p :: k <= p < |s| ==> CoveredBy(d, base, s[..k], s[p]))
    && (forall x :: x in found && x !in s ==>
          || (CoveredBy(d, base, s[..k], x) && forall p :: k <= p < |s| ==> Nearer(d, base, s[p], x))
          || (k == m == |s| && forall i :: 0 <= i < m ==> Nearer(d, base, s[i], x)))
  }

  /** s is the heuristic's pick of at most m links for base out of what was found. */
  ghost predicate Selected(d: Between, base: nat, found: set<nat>, m: nat, s: seq<nat>) {
    && Distinct(s) && (forall y :: y in s ==> y in found)
    && (|found| <= m ==> |s| == |found| && NearestFirst(d, base, s))
    && (|found| > m ==> |s| == m && exists k: nat :: k <= |s| && Division(d, base, found, m, s, k))
  }

  /** What the search for id found on a layer from this start: reachable nodes, at most `width` of
      them, and all there are if they are fewer; nothing farther than the start unless the start is
      among them; and a link from a found node to one closer than some found node is itself found. */
  ghost predicate FoundFrom(d: Between, layer: Layer, id: nat, start: nat, width: nat, found: set<nat>) {
    && 0 < |found| <= width && id !in found
    && (forall x :: x in found ==> x in layer && Reachable(layer, start, x))
    && (|found| < width ==> forall x :: x in layer && Reachable(layer, start, x) ==> x in found)
    && (start !in found ==> forall x :: x in found ==> d(id, x) <= d(id, start))
    && (forall x, y, z :: x in found && y in layer[x] && z in found && d(id, y) < d(id, z) ==> y in found)
  }

  ghost function Members(s: seq<nat>): (all: set<nat>)
    ensures forall y :: y in all <==> y in s
  {
    set y | y in s
  }

  /** n's list after id linked to it, or did not: unchanged, longer by id, or the heuristic's pick of
      its links and id. */
  ghost predicate TookIn(d: Between, n: nat, id: nat, picked: bool, cap: nat, before: seq<nat>, after: seq<nat>) {
    if !picked then after == before
    else if |before| < cap then after == before + [id]
    else Selected(d, n, Members(before) + {id}, cap, after)
  }

  /** id, on the layer without links before, has been connected. */
  ghost predicate LayerPlaced(d: Between, before: Layer, after: Layer, id: nat, start: nat, width: nat, m: nat, cap: nat) {
    && after.Keys == before.Keys && id in before && start in before && start != id
    && (exists found: set<nat> :: FoundFrom(d, before, id, start, width, found) && Selected(d, id, found, m, after[id]))
    && forall n :: n in before && n != id ==> TookIn(d, n, id, n in after[id], cap, before[n], after[n])
  }

  // --- the heuristic's pick

  /** The queue lists candidates at their distances from base. */
  ghost predicate Lists(d: Between, base: nat, cands: seq<Cand>, top: set<Cand>) {
    && SortingOf(cands, top) && |cands| == |top|
    && (forall p :: 0 <= p < |cands| ==> cands[p].dist == d(base, cands[p].id))
    && (forall p, r :: 0 <= p < r < |cands| ==> cands[p].id != cands[r].id)
  }

  ghost function Ids(top: set<Cand>): set<nat> {
    set c | c in top :: c.id
  }

  lemma {:induction false} IdsSize(top: set<Cand>)
    requires DistinctIds(top)
    ensures |Ids(top)| == |top|
  {
    if top != {} {
      var c :| c in top;
      IdsSize(top - {c});
      assert Ids(top) == Ids(top - {c}) + {c.id};
    }
  }

  lemma QueueLists(d: Between, base: nat, cands: seq<Cand>, top: set<Cand>)
    requires SortingOf(cands, top) && |cands| == |top| && DistinctIds(top)
    requires forall c :: c in top ==> c.dist == d(base, c.id)
    ensures Lists(d, base, cands, top)
  {
    forall p | 0 <= p < |cands| ensures cands[p].dist == d(base, cands[p].id) {
      assert cands[p] in cands;
    }
    forall p, r | 0 <= p < r < |cands| ensures cands[p].id != cands[r].id {
      PositionsApart(cands, top, p, r);
    }
  }

  /** Positions in order list nodes nearest first. */
  lemma InOrder(d: Between, base: nat, cands: seq<Cand>, top: set<Cand>, p: nat, r: nat)
    requires Lists(d, base, cands, top) && p < r < |cands|
    ensures Nearer(d, base, cands[p].id, cands[r].id)
  {
    assert Before(cands[p], cands[r]);
  }

  lemma ListedInOrder(d: Between, base: nat, cands: seq<Cand>, top: set<Cand>, ps: seq<nat>)
    requires Lists(d, base, cands, top) && Increasing(ps) && Below(ps, |cands|)
    ensures NearestFirst(d, base, IdsAt(cands, ps))
  {
    var s := IdsAt(cands, ps);
    forall i, j | 0 <= i < j < |s| ensures Nearer(d, base, s[i], s[j]) {
      InOrder(d, base, cands, top, ps[i], ps[j]);
    }
  }

  /** A covered position has an uncovered witness before it. */
  lemma CoverIsCoveredBy(d: Between, base: nat, cands: seq<Cand>, top: set<Cand>, kept: seq<nat>, p: nat)
    requires Lists(d, base, cands, top) && p < |cands| && Covered(d, cands, p) && Below(kept, |cands|)
    requires forall r: nat :: r < p && !Covered(d, cands, r) ==> r in kept
    ensures CoveredBy(d, base, IdsAt(cands, kept), cands[p].id)
  {
    var r: nat :| r < p && !Covered(d, cands, r) && d(cands[p].id, cands[r].id) < cands[p].dist;
    assert r in kept;
    var i :| 0 <= i < |kept| && kept[i] == r;
    InOrder(d, base, cands, top, r, p);
    assert IdsAt(cands, kept)[i] == cands[r].id;
  }

  lemma UncoveredAreDiverse(d: Between, base: nat, cands: seq<Cand>, top: set<Cand>, kept: seq<nat>)
    requires Lists(d, base, cands, top) && Increasing(kept) && Below(kept, |cands|)
    requires forall i :: 0 <= i < |kept| ==> !Covered(d, cands, kept[i])
    ensures var s := IdsAt(cands, kept); forall i, j :: 0 <= i < j < |s| ==> d(s[j], s[i]) >= d(base, s[j])
  {
    var s := IdsAt(cands, kept);
    forall i, j | 0 <= i < j < |s| ensures d(s[j], s[i]) >= d(base, s[j]) {
      assert !Covered(d, cands, kept[j]) && !Covered(d, cands, kept[i]);
    }
  }

  /** Enough diverse candidates: the first m of them are picked. */
  lemma PickedDiverse(d: Between, base: nat, cands: seq<Cand>, top: set<Cand>, m: nat)
    requires Lists(d, base, cands, top) && m < |cands| && |Positions(d, cands, |cands|, false)| >= m
    ensures var s := IdsAt(cands, Positions(d, cands, |cands|, false)[..m]);
      Division(d, base, Ids(top), m, s, m)
  {
    var all := Positions(d, cands, |cands|, false);
    var kept := all[..m];
    var s := IdsAt(cands, kept);
    PositionsMeaning(d, cands, |cands|, false);
    forall i | 0 <= i < |kept| ensures !Covered(d, cands, kept[i]) {
      assert all[i] in all;
    }
    assert s[..m] == s && s[m..] == [];
    ListedInOrder(d, base, cands, top, kept);
    UncoveredAreDiverse(d, base, cands, top, kept);
    forall x | x in Ids(top) && x !in s
      ensures CoveredBy(d, base, s, x) || forall i :: 0 <= i < m ==> Nearer(d, base, s[i], x)
    {
      var p := PositionOf(cands, top, x);
      LeftOutOfDiverse(d, base, cands, top, m, p);
    }
  }

  lemma PositionOf(cands: seq<Cand>, top: set<Cand>, x: nat) returns (p: nat)
    requires SortingOf(cands, top) && x in Ids(top)
    ensures p < |cands| && cands[p].id == x
  {
    var c :| c in top && c.id == x;
    assert c in cands;
    p :| 0 <= p < |cands| && cands[p] == c;
  }

  lemma LeftOutOfDiverse(d: Between, base: nat, cands: seq<Cand>, top: set<Cand>, m: nat, p: nat)
    requires Lists(d, base, cands, top) && p < |cands| && |Positions(d, cands, |cands|, false)| >= m
    requires cands[p].id !in IdsAt(cands, Positions(d, cands, |cands|, false)[..m])
    ensures var s := IdsAt(cands, Positions(d, cands, |cands|, false)[..m]);
      CoveredBy(d, base, s, cands[p].id) || forall i :: 0 <= i < m ==> Nearer(d, base, s[i], cands[p].id)
  {
    var all := Positions(d, cands, |cands|, false);
    var kept := all[..m];
    var s := IdsAt(cands, kept);
    assert forall i :: 0 <= i < m ==> s[i] == cands[kept[i]].id && kept[i] == all[i];
    assert forall i :: 0 <= i < m ==> kept[i] != p by {
      assert forall i :: 0 <= i < m ==> s[i] in s;
    }
    if m == 0 || kept[m - 1] < p {
      forall i | 0 <= i < m ensures Nearer(d, base, s[i], cands[p].id) {
        InOrder(d, base, cands, top, kept[i], p);
      }
    } else {
      BeforeLastKept(d, cands, m, p);
      CoverIsCoveredBy(d, base, cands, top, kept, p);
    }
  }

  /** A position before the last of the first m uncovered ones, and not among them, is covered, and all
      uncovered ones before it are among them. */
  lemma BeforeLastKept(d: Between, cands: seq<Cand>, m: nat, p: nat)
    requires 0 < m <= |Positions(d, cands, |cands|, false)| && p < Positions(d, cands, |cands|, false)[m - 1] < |cands|
    requires forall i :: 0 <= i < m ==> Positions(d, cands, |cands|, false)[i] != p
    ensures Covered(d, cands, p)
    ensures forall r: nat :: r < p && !Covered(d, cands, r) ==> r in Positions(d, cands, |cands|, false)[..m]
  {
    var all := Positions(d, cands, |cands|, false);
    PositionsMeaning(d, cands, |cands|, false);
    forall r: nat | r <= p && !Covered(d, cands, r) ensures r in all[..m] {
      assert r in all;
      var i :| 0 <= i < |all| && all[i] == r;
      assert i < m;
      assert all[..m][i] == r;
    }
    assert p !in all[..m];
  }

  /** kept and rest divide the candidates into uncovered and covered ones. */
  ghost predicate Divides(d: Between, cands: seq<Cand>, kept: seq<nat>, rest: seq<nat>) {
    && Increasing(kept) && Increasing(rest) && Below(kept, |cands|) && Below(rest, |cands|)
    && (forall p: nat :: p in kept <==> p < |cands| && !Covered(d, cands, p))
    && (forall p: nat :: p in rest <==> p < |cands| && Covered(d, cands, p))
  }

  lemma PositionsDivide(d: Between, cands: seq<Cand>)
    ensures Divides(d, cands, Positions(d, cands, |cands|, false), Positions(d, cands, |cands|, true))
  {
    PositionsMeaning(d, cands, |cands|, false);
    PositionsMeaning(d, cands, |cands|, true);
  }

  /** Not enough diverse candidates: all of them are picked, and the nearest covered ones fill up. */
  lemma PickedFilledUp(d: Between, base: nat, cands: seq<Cand>, top: set<Cand>, m: nat, kept: seq<nat>, rest: seq<nat>, n: nat)
    requires Lists(d, base, cands, top) && Divides(d, cands, kept, rest) && n <= |rest|
    ensures Division(d, base, Ids(top), m, IdsAt(cands, kept + rest[..n]), |kept|)
  {
    var more, s := rest[..n], IdsAt(cands, kept + rest[..n]);
    SplitIds(cands, kept, more);
    ListedInOrder(d, base, cands, top, kept);
    ListedInOrder(d, base, cands, top, more);
    assert forall i :: 0 <= i < |kept| ==> kept[i] in kept;
    UncoveredAreDiverse(d, base, cands, top, kept);
    forall i, j | 0 <= i < j < |kept| ensures d(s[j], s[i]) >= d(base, s[j]) {
      assert s[..|kept|][i] == s[i] && s[..|kept|][j] == s[j];
    }
    forall p | |kept| <= p < |s| ensures CoveredBy(d, base, s[..|kept|], s[p]) {
      assert more[p - |kept|] in rest;
      CoverIsCoveredBy(d, base, cands, top, kept, more[p - |kept|]);
    }
    forall x | x in Ids(top) && x !in s
      ensures CoveredBy(d, base, s[..|kept|], x) && forall p :: |kept| <= p < |s| ==> Nearer(d, base, s[p], x)
    {
      var p := PositionOf(cands, top, x);
      LeftOutOfFilledUp(d, base, cands, top, kept, rest, n, p);
    }
  }

  lemma SplitIds(cands: seq<Cand>, kept: seq<nat>, more: seq<nat>)
    requires Below(kept, |cands|) && Below(more, |cands|)
    ensures var s := IdsAt(cands, kept + more); s[..|kept|] == IdsAt(cands, kept) && s[|kept|..] == IdsAt(cands, more)
  {
  }

  lemma LeftOutOfFilledUp(d: Between, base: nat, cands: seq<Cand>, top: set<Cand>, kept: seq<nat>, rest: seq<nat>, n: nat, p: nat)
    requires Lists(d, base, cands, top) && Divides(d, cands, kept, rest) && n <= |rest| && p < |cands|
    requires cands[p].id !in IdsAt(cands, kept + rest[..n])
    ensures var s := IdsAt(cands, kept + rest[..n]);
      CoveredBy(d, base, IdsAt(cands, kept), cands[p].id) && forall i :: |kept| <= i < |s| ==> Nearer(d, base, s[i], cands[p].id)
  {
    NotChosen(cands, kept + rest[..n], p);
    assert forall r :: r in kept ==> r in kept + rest[..n];
    CoverIsCoveredBy(d, base, cands, top, kept, p);
    BeyondFirst(kept, rest, n, p);
    var s := IdsAt(cands, kept + rest[..n]);
    forall i | |kept| <= i < |s| ensures Nearer(d, base, s[i], cands[p].id) {
      InOrder(d, base, cands, top, rest[i - |kept|], p);
    }
  }

  lemma NotChosen(cands: seq<Cand>, chosen: seq<nat>, p: nat)
    requires Below(chosen, |cands|) && p < |cands| && cands[p].id !in IdsAt(cands, chosen)
    ensures p !in chosen
  {
    forall i | 0 <= i < |chosen| ensures chosen[i] != p {
      assert IdsAt(cands, chosen)[i] in IdsAt(cands, chosen);
    }
  }

  lemma BeyondFirst(kept: seq<nat>, rest: seq<nat>, n: nat, p: nat)
    requires Increasing(rest) && n <= |rest| && p in rest && p !in kept + rest[..n]
    ensures forall i :: 0 <= i < n ==> rest[i] < p
  {
    var q :| 0 <= q < |rest| && rest[q] == p;
    assert forall i :: 0 <= i < n ==> (kept + rest[..n])[|kept| + i] == rest[i];
  }

  /** Everything is picked when there is no need to choose. */
  lemma PickedAll(d: Between, base: nat, cands: seq<Cand>, top: set<Cand>, m: nat)
    requires Lists(d, base, cands, top) && |cands| <= m
    ensures NearestFirst(d, base, IdsAt(cands, Choose(d, cands, m)))
  {
    ListedInOrder(d, base, cands, top, seq(|cands|, i => i));
  }

  lemma ChoiceDivides(d: Between, base: nat, cands: seq<Cand>, top: set<Cand>, m: nat) returns (k: nat)
    requires Lists(d, base, cands, top) && |cands| > m
    ensures k <= |IdsAt(cands, Choose(d, cands, m))| && Division(d, base, Ids(top), m, IdsAt(cands, Choose(d, cands, m)), k)
  {
    PositionsPartition(d, cands, |cands|);
    var kept, rest := Positions(d, cands, |cands|, false), Positions(d, cands, |cands|, true);
    if |kept| >= m {
      assert Choose(d, cands, m) == kept[..m];
      PickedDiverse(d, base, cands, top, m);
      k := m;
    } else {
      assert Choose(d, cands, m) == kept + rest[..m - |kept|];
      PositionsDivide(d, cands);
      PickedFilledUp(d, base, cands, top, m, kept, rest, m - |kept|);
      k := |kept|;
    }
  }

  /** The heuristic's closed form meets the characterisation by distances. */
  lemma ChoiceIsSelected(d: Between, base: nat, cands: seq<Cand>, top: set<Cand>, m: nat)
    requires SortingOf(cands, top) && |cands| == |top| && DistinctIds(top)
    requires forall c :: c in top ==> c.dist == d(base, c.id)
    ensures Selected(d, base, Ids(top), m, IdsAt(cands, Choose(d, cands, m)))
  {
    var s := IdsAt(cands, Choose(d, cands, m));
    QueueLists(d, base, cands, top);
    IdsSize(top);
    PickedList(d, cands, top, m);
    if |cands| <= m {
      PickedAll(d, base, cands, top, m);
    } else {
      var k := ChoiceDivides(d, base, cands, top, m);
      assert Division(d, base, Ids(top), m, s, k);
    }
  }

  // --- what a pick means

  lemma NearerTransitive(d: Between, base: nat, x: nat, y: nat, z: nat)
    requires Nearer(d, base, x, y) && Nearer(d, base, y, z)
    ensures Nearer(d, base, x, z)
  {
  }

  /** What is kept nearest first starts with the nearest, and what it covers is farther than that. */
  lemma FirstOfKept(d: Between, base: nat, kept: seq<nat>, x: nat)
    requires NearestFirst(d, base, kept) && (x in kept || CoveredBy(d, base, kept, x))
    ensures kept != [] && (x == kept[0] || Nearer(d, base, kept[0], x))
  {
    var i :| 0 <= i < |kept| && (kept[i] == x || Nearer(d, base, kept[i], x));
    if i > 0 && kept[i] != x {
      NearerTransitive(d, base, kept[0], kept[i], x);
    }
  }

  /** The first link is nearest of all that was found. */
  lemma FirstIsNearest(d: Between, base: nat, found: set<nat>, m: nat, s: seq<nat>, x: nat)
    requires Selected(d, base, found, m, s) && m >= 1 && x in found
    ensures s != [] && (x == s[0] || Nearer(d, base, s[0], x))
  {
    if |found| <= m {
      AllAreListed(found, s, x);
      FirstOfKept(d, base, s, x);
    } else {
      var k: nat :| k <= |s| && Division(d, base, found, m, s, k);
      FirstOfDivision(d, base, found, m, s, k, x);
    }
  }

  lemma FirstOfDivision(d: Between, base: nat, found: set<nat>, m: nat, s: seq<nat>, k: nat, x: nat)
    requires k <= |s| == m && m >= 1 && Division(d, base, found, m, s, k) && x in found
    ensures x == s[0] || Nearer(d, base, s[0], x)
  {
    var kept := s[..k];
    if k < m {
      FirstOfKept(d, base, kept, s[k]);
    }
    if x in s {
      var p :| 0 <= p < |s| && s[p] == x;
      assert p < k ==> kept[p] == x;
      FirstOfKept(d, base, kept, x);
    } else if CoveredBy(d, base, kept, x) {
      FirstOfKept(d, base, kept, x);
    }
  }

  /** A list as long as the set its distinct members are from lists all of it. */
  lemma AllAreListed(found: set<nat>, s: seq<nat>, x: nat)
    requires Distinct(s) && (forall y :: y in s ==> y in found) && |s| == |found| && x in found
    ensures x in s
  {
    ListedSize(s);
    SubsetOfSameSize(Members(s), found);
  }

  lemma {:induction false} ListedSize(s: seq<nat>)
    requires Distinct(s)
    ensures |Members(s)| == |s|
  {
    if s != [] {
      var n := |s| - 1;
      ListedSize(s[..n]);
      assert s == s[..n] + [s[n]];
      assert Members(s) == Members(s[..n]) + {s[n]};
    }
  }

  /** What is left out of a pick that had to choose: some picked node is closer to it than the base
      is, or no picked node is farther from the base than it. */
  lemma LeftOutFor(d: Between, base: nat, found: set<nat>, m: nat, s: seq<nat>, y: nat)
    requires Selected(d, base, found, m, s) && y in found && y !in s
    ensures (exists r :: r in s && d(y, r) < d(base, y)) || forall z :: z in s ==> d(base, z) <= d(base, y)
  {
    if |found| <= m {
      AllAreListed(found, s, y);
    } else {
      var k: nat :| k <= |s| && Division(d, base, found, m, s, k);
      if CoveredBy(d, base, s[..k], y) {
        var i :| 0 <= i < k && d(y, s[..k][i]) < d(base, y);
        assert s[i] in s;
      }
    }
  }

  /** A full node keeps as many links as it had, and gives up exactly one of them and the newcomer;
      either some node it kept is closer to that one than it is itself, or it kept nothing farther. */
  lemma FullNodeGivesUp(d: Between, n: nat, id: nat, cap: nat, before: seq<nat>, after: seq<nat>) returns (y: nat)
    requires TookIn(d, n, id, true, cap, before, after) && |before| == cap && Distinct(before) && id !in before
    ensures |after| == cap && (y in before || y == id) && y !in after
    ensures forall z :: z in after <==> (z in before || z == id) && z != y
    ensures (exists r :: r in after && d(y, r) < d(n, y)) || forall z :: z in after ==> d(n, z) <= d(n, y)
  {
    var pool, kept := Members(before) + {id}, Members(after);
    ListedSize(before);
    ListedSize(after);
    y := OnlyOneLeft(pool, kept);
    LeftOutFor(d, n, pool, cap, after, y);
  }

  lemma OnlyOneLeft(pool: set<nat>, kept: set<nat>) returns (y: nat)
    requires kept <= pool && |pool| == |kept| + 1
    ensures y in pool && forall z :: z in kept <==> z in pool && z != y
  {
    assert |pool - kept| == 1;
    y :| y in pool - kept;
    SubsetOfSameSize({y}, pool - kept);
    forall z ensures z in kept <==> z in pool && z != y {
      assert z in pool - kept <==> z in {y};
    }
  }

  // --- what the search found

  /** The query of an insertion: the distances from the new node, and every node may be returned. */
  ghost predicate PlacingQuery(d: Between, q: Query, id: nat, width: nat) {
    q.ef == width && (forall x :: q.dist(x) == d(id, x)) && forall x :: q.live(x)
  }

  /** A link from a followed node to one closer than the worst that was found leads to a found node. */
  lemma StepInside(layer: Layer, q: Query, start: nat, top: set<Cand>, expanded: set<nat>, x: nat, y: nat, w: real)
    requires Complete(layer, q, start, top, expanded) && WorstInStep(top, At(w))
    requires x in expanded && x in layer && y in layer && y in layer[x] && q.live(y) && q.dist(y) < w
    ensures Scored(q.dist, y) in top
  {
    var p := [x, y];
    assert IsPath(layer, p);
    assert forall i :: 0 < i < |p| ==> p[i] == y;
    assert p[1] in expanded && Scored(q.dist, p[1]) in top;
  }

  lemma LinkFromFound(d: Between, q: Query, layer: Layer, id: nat, start: nat, width: nat, top: set<Cand>, expanded: set<nat>,
                      x: nat, y: nat, z: nat)
    requires PlacingQuery(d, q, id, width) && Closed(layer)
    requires Sound(layer, q, start, top) && Complete(layer, q, start, top, expanded)
    requires x in Ids(top) && y in layer[x] && z in Ids(top) && d(id, y) < d(id, z)
    ensures y in Ids(top)
  {
    var c :| c in top && c.id == x;
    var e :| e in top && e.id == z;
    var far := FarthestOf(top);
    assert WorstInStep(top, At(far.dist));
    StepInside(layer, q, start, top, expanded, x, y, far.dist);
  }

  lemma FarthestOf(top: set<Cand>) returns (far: Cand)
    requires top != {}
    ensures far in top && forall c :: c in top ==> c.dist <= far.dist
  {
    LastExists(top);
    far :| far in top && forall x :: x in top ==> x == far || Before(x, far);
  }

  lemma SearchFinds(d: Between, q: Query, layer: Layer, id: nat, start: nat, width: nat, top: set<Cand>, expanded: set<nat>)
    requires PlacingQuery(d, q, id, width) && Closed(layer) && Isolated(layer, id) && start != id && top != {}
    requires Sound(layer, q, start, top) && Complete(layer, q, start, top, expanded)
    ensures DistinctIds(top) && FoundFrom(d, layer, id, start, width, Ids(top))
  {
    TopAvoidsNewNode(layer, q, start, id, top);
    IdsSize(top);
    var c :| c in top;
    assert c.id in Ids(top);
    forall x, y, z | x in Ids(top) && x in layer && y in layer[x] && z in Ids(top) && d(id, y) < d(id, z) ensures y in Ids(top) {
      LinkFromFound(d, q, layer, id, start, width, top, expanded, x, y, z);
    }
    if |top| < width {
      forall x | x in layer && Reachable(layer, start, x) ensures x in Ids(top) {
        assert Scored(q.dist, x) in top;
      }
    }
    if start !in Ids(top) {
      assert Scored(q.dist, start) !in top;
    }
  }

  // --- what the picked nodes made of their lists

  lemma PoolIds(d: Between, n: nat, links: seq<nat>, id: nat, pool: set<Cand>)
    requires IsPool(d, n, links, id, pool)
    ensures DistinctIds(pool) && Ids(pool) == Members(links) + {id}
  {
    forall y ensures y in Ids(pool) <==> y in links || y == id {
      if y in links || y == id {
        assert Cand(d(n, y), y) in pool;
      }
    }
  }

  lemma UpdatedTookIn(d: Between, n: nat, id: nat, cap: nat, before: seq<nat>, after: seq<nat>)
    requires Updated(d, n, id, cap, before, after)
    ensures TookIn(d, n, id, true, cap, before, after)
  {
    if |before| >= cap {
      var cands, pool :| Pruned(d, n, id, cap, before, after, cands, pool);
      PoolIds(d, n, before, id, pool);
      ChoiceIsSelected(d, n, cands, pool, cap);
    }
  }

  // --- one layer

  /** One connected layer, and what the next one starts from. */
  lemma ConnectionIsPlaced(d: Between, q: Query, g: Graph, h: Graph, id: nat, cur: nat, l: nat, next: nat, width: nat,
                           top: set<Cand>, expanded: set<nat>, cands: seq<Cand>)
    requires g.Stored() && h.Stored() && Connection(d, q, g, h, id, cur, l, next, top, expanded, cands)
    requires PlacingQuery(d, q, id, width) && Pending(g, id, l) && cur in g.Layer(l) && cur != id
    ensures LayerPlaced(d, g.Layer(l), h.Layer(l), id, cur, width, g.arena.m, g.Capacity(l))
    ensures h.Layer(l)[id] != [] && next == h.Layer(l)[id][0]
    ensures DistinctIds(top) && forall c :: c in top ==> c.id in g.Layer(l) && c.id != id
  {
    var layer, after, m := g.Layer(l), h.Layer(l), g.arena.m;
    var selected := IdsAt(cands, Choose(d, cands, m));
    OkIsClosed(layer, g.Capacity(l));
    TopAvoidsNewNode(layer, q, cur, id, top);
    assert |top| == |cands| > 0;
    SearchFinds(d, q, layer, id, cur, width, top, expanded);
    ChoiceIsSelected(d, id, cands, top, m);
    assert after[id] == selected;
    forall n | n in layer && n != id ensures TookIn(d, n, id, n in after[id], g.Capacity(l), layer[n], after[n]) {
      if n in selected {
        UpdatedTookIn(d, n, id, g.Capacity(l), layer[n], after[n]);
      }
    }
  }

  // --- all layers

  /** The insertion of id, begun on g, has connected the layers from l up; those below are as they
      were, and the next search starts at cur. */
  ghost predicate Reached(g: Graph, now: Graph, id: nat, cur: nat, l: nat, c: nat) {
    && g.Stored() && Partial(now, id, l) && now.levels == g.levels && now.count == g.count && now.arena.m == g.arena.m
    && (forall l': nat :: l' < l ==> now.Layer(l') == g.Layer(l'))
    && cur < g.count && g.levels[cur] >= (if l > c then c else l) && cur != id
  }

  lemma SelectedFits(d: Between, q: Query, g: Graph, h: Graph, id: nat, cur: nat, l: nat, next: nat,
                     top: set<Cand>, expanded: set<nat>, cands: seq<Cand>)
    requires g.Stored() && h.Stored() && Connection(d, q, g, h, id, cur, l, next, top, expanded, cands)
    requires DistinctIds(top) && (forall c :: c in top ==> c.id in g.Layer(l) && c.id != id)
    requires Partial(g, id, l + 1) && g.arena.m >= 1
    ensures Partial(h, id, l) && next in g.Layer(l) && next != id
  {
    var selected := IdsAt(cands, Choose(d, cands, g.arena.m));
    PickedList(d, cands, top, g.arena.m);
    PickedFits(g.Layer(l), id, top, selected, g.arena.m, g.Capacity(l));
    ConnectStep(d, g, h, id, l, selected);
    assert selected[0] in selected;
  }

  /** One step of the insertion. */
  lemma StepPlaces(d: Between, q: Query, g: Graph, now: Graph, h: Graph, id: nat, cur: nat, next: nat, l: nat, c: nat, width: nat)
    requires Reached(g, now, id, cur, l + 1, c) && l <= c && Connected(d, q, now, h, id, cur, l, next)
    requires PlacingQuery(d, q, id, width) && g.arena.m >= 1
    ensures Reached(g, h, id, next, l, c) && SameBut(now, h, l)
    ensures LayerPlaced(d, g.Layer(l), h.Layer(l), id, cur, width, g.arena.m, g.Capacity(l))
    ensures h.Layer(l)[id] != [] && next == h.Layer(l)[id][0]
  {
    assert Pending(now, id, l);
    OnLayer(now, cur, l);
    var top, expanded, cands :| Connection(d, q, now, h, id, cur, l, next, top, expanded, cands);
    ConnectionIsPlaced(d, q, now, h, id, cur, l, next, width, top, expanded, cands);
    SelectedFits(d, q, now, h, id, cur, l, next, top, expanded, cands);
    OnLayer(now, next, l);
  }

  /** Node id's first link on a layer. */
  ghost function FirstLink(layer: Layer, id: nat): nat {
    if id in layer && layer[id] != [] then layer[id][0] else 0
  }

  /** What connecting a node did to a layer: before, after, the search's start, the capacity. */
  type Placing = (Layer, Layer, nat, nat) -> bool

  ghost function PlacingOf(d: Between, id: nat, width: nat, m: nat): Placing {
    (before: Layer, after: Layer, start: nat, cap: nat) => LayerPlaced(d, before, after, id, start, width, m, cap)
  }

  /** What a step from a to b on layer l did. */
  ghost predicate StepPlaced(placed: Placing, g: Graph, id: nat, a: Stage, b: Stage, l: nat) {
    && g.Stored() && a.graph.Stored() && b.graph.Stored() && SameBut(a.graph, b.graph, l)
    && placed(g.Layer(l), b.graph.Layer(l), a.at, g.Capacity(l))
    && b.at == FirstLink(b.graph.Layer(l), id)
  }

  /** A fact about a stage of the insertion and the layer it has come down to. */
  type Fact = (Stage, nat) -> bool

  ghost function ReachedFrom(g: Graph, id: nat, c: nat): Fact {
    (s: Stage, l: nat) => Reached(g, s.graph, id, s.at, l, c)
  }

  ghost function PlacingStep(placed: Placing, g: Graph, id: nat): Step {
    (a: Stage, b: Stage, l: nat) => StepPlaced(placed, g, id, a, b, l)
  }

  /** Every step keeps the fact and does what it should. */
  ghost predicate Leads(step: Step, fact: Fact, does: Step, c: nat) {
    forall a: Stage, b: Stage, l: nat :: l <= c && fact(a, l + 1) && step(a, b, l) ==> fact(b, l) && does(a, b, l)
  }

  lemma {:induction false} AllSteps(step: Step, fact: Fact, does: Step, c: nat, stages: seq<Stage>, n: nat)
    requires IsLinking(step, c, 0, stages) && Leads(step, fact, does, c) && fact(stages[0], c + 1) && n <= c + 1
    ensures fact(stages[n], c + 1 - n)
    ensures forall i: nat :: i < n ==> does(stages[i], stages[i + 1], c - i)
  {
    if n > 0 {
      AllSteps(step, fact, does, c, stages, n - 1);
      assert step(stages[n - 1], stages[n], c - (n - 1));
      assert fact(stages[n - 1], c - (n - 1) + 1);
    }
  }

  lemma StepsLead(d: Between, q: Query, g: Graph, id: nat, width: nat, c: nat)
    requires PlacingQuery(d, q, id, width) && g.arena.m >= 1
    ensures Leads(LayerStep(d, q, id), ReachedFrom(g, id, c), PlacingStep(PlacingOf(d, id, width, g.arena.m), g, id), c)
  {
    forall a: Stage, b: Stage, l: nat
      | l <= c && Reached(g, a.graph, id, a.at, l + 1, c) && Connected(d, q, a.graph, b.graph, id, a.at, l, b.at)
      ensures Reached(g, b.graph, id, b.at, l, c) && StepPlaced(PlacingOf(d, id, width, g.arena.m), g, id, a, b, l)
    {
      StepPlaces(d, q, g, a.graph, b.graph, id, a.at, b.at, l, c, width);
    }
  }

  /** All steps of the linking did what they should. */
  ghost predicate AllPlaced(does: Step, c: nat, stages: seq<Stage>) {
    |stages| == c + 2 && forall i: nat :: i <= c ==> does(stages[i], stages[i + 1], c - i)
  }

  ghost predicate KeepsOthers(a: Stage, b: Stage, l: nat) {
    a.graph.Stored() && b.graph.Stored() && SameBut(a.graph, b.graph, l)
  }

  ghost function KeepingStep(): Step {
    (a: Stage, b: Stage, l: nat) => KeepsOthers(a, b, l)
  }

  lemma PlacingKeeps(placed: Placing, g: Graph, id: nat, c: nat, stages: seq<Stage>)
    requires AllPlaced(PlacingStep(placed, g, id), c, stages)
    ensures AllPlaced(KeepingStep(), c, stages)
  {
    forall i: nat | i <= c ensures KeepsOthers(stages[i], stages[i + 1], c - i) {
      assert PlacingStep(placed, g, id)(stages[i], stages[i + 1], c - i);
    }
  }

  /** Later steps leave a connected layer alone. */
  lemma {:induction false} LaterStepsKeep(c: nat, stages: seq<Stage>, i: nat, l: nat)
    requires AllPlaced(KeepingStep(), c, stages) && i <= c + 1 && c + 1 - i <= l
    ensures stages[i].graph.Stored() && stages[c + 1].graph.Stored()
    ensures stages[c + 1].graph.Layer(l) == stages[i].graph.Layer(l)
    decreases c + 1 - i
  {
    if i <= c {
      assert KeepingStep()(stages[i], stages[i + 1], c - i);
      LaterStepsKeep(c, stages, i + 1, l);
    } else {
      assert KeepingStep()(stages[c], stages[c + 1], 0);
    }
  }

  /** Where the search on layer l starts: at the end of the descent, or at the first link the layer
      above got. */
  ghost function StartOn(h: Graph, id: nat, start: nat, c: nat, l: nat): nat
    requires h.Stored()
  {
    if l == c then start else FirstLink(h.Layer(l + 1), id)
  }

  lemma StageStart(placed: Placing, g: Graph, id: nat, c: nat, stages: seq<Stage>, i: nat)
    requires AllPlaced(PlacingStep(placed, g, id), c, stages) && i <= c
    ensures stages[c + 1].graph.Stored() && stages[i].at == StartOn(stages[c + 1].graph, id, stages[0].at, c, c - i)
  {
    PlacingKeeps(placed, g, id, c, stages);
    LaterStepsKeep(c, stages, i, c - i + 1);
    if i > 0 {
      assert PlacingStep(placed, g, id)(stages[i - 1], stages[i], c - (i - 1));
    }
  }

  lemma OneLayerPlaced(placed: Placing, g: Graph, id: nat, c: nat, stages: seq<Stage>, l: nat)
    requires AllPlaced(PlacingStep(placed, g, id), c, stages) && l <= c
    ensures g.Stored() && stages[c + 1].graph.Stored()
    ensures var h := stages[c + 1].graph;
      placed(g.Layer(l), h.Layer(l), StartOn(h, id, stages[0].at, c, l), g.Capacity(l))
  {
    var i := c - l;
    StageStart(placed, g, id, c, stages, i);
    PlacingKeeps(placed, g, id, c, stages);
    LaterStepsKeep(c, stages, i + 1, l);
    assert PlacingStep(placed, g, id)(stages[i], stages[i + 1], l);
  }

  /** All layers from c down. */
  ghost predicate LayersPlaced(placed: Placing, g: Graph, h: Graph, id: nat, start: nat, c: nat)
    requires g.Stored() && h.Stored()
  {
    forall l: nat :: l <= c ==>
      placed(g.Layer(l), h.Layer(l), StartOn(h, id, start, c, l), g.Capacity(l))
  }

  lemma LinkedIsPlaced(d: Between, q: Query, g: Graph, h: Graph, id: nat, start: nat, c: nat, width: nat)
    requires Linked(LayerStep(d, q, id), c, g, start, h)
    requires Reached(g, g, id, start, c + 1, c) && PlacingQuery(d, q, id, width) && g.arena.m >= 1
    ensures h.Stored() && LayersPlaced(PlacingOf(d, id, width, g.arena.m), g, h, id, start, c) && h.count == g.count
    ensures forall l: nat :: l > c ==> h.Layer(l) == g.Layer(l)
  {
    var placed := PlacingOf(d, id, width, g.arena.m);
    var stages: seq<Stage> :| IsLinking(LayerStep(d, q, id), c, 0, stages)
                              && stages[0] == Stage(g, start) && stages[c + 1].graph == h;
    StepsLead(d, q, g, id, width, c);
    AllSteps(LayerStep(d, q, id), ReachedFrom(g, id, c), PlacingStep(placed, g, id), c, stages, c + 1);
    assert ReachedFrom(g, id, c)(stages[c + 1], 0);
    StagesPlaced(placed, g, h, id, start, c, stages);
  }

  lemma StagesPlaced(placed: Placing, g: Graph, h: Graph, id: nat, start: nat, c: nat, stages: seq<Stage>)
    requires AllPlaced(PlacingStep(placed, g, id), c, stages) && stages[0] == Stage(g, start) && stages[c + 1].graph == h
    ensures g.Stored() && h.Stored() && LayersPlaced(placed, g, h, id, start, c)
    ensures forall l: nat :: l > c ==> h.Layer(l) == g.Layer(l)
  {
    OneLayerPlaced(placed, g, id, c, stages, c);
    PlacingKeeps(placed, g, id, c, stages);
    forall l: nat | l <= c
      ensures placed(g.Layer(l), h.Layer(l), StartOn(h, id, start, c, l), g.Capacity(l))
    {
      OneLayerPlaced(placed, g, id, c, stages, l);
    }
    forall l: nat | l > c ensures h.Layer(l) == g.Layer(l) {
      LaterStepsKeep(c, stages, 0, l);
    }
  }

  // --- the whole insertion

  /** One completed hill climb on each layer from `top` down to the one above `level`, from the entry
      point to `start`: to a reachable node no farther than where it began and with no closer link. */
  ghost predicate ClimbedDown(d: Between, g: Graph, id: nat, top: nat, level: nat, entry: nat, start: nat)
    requires g.Stored()
  {
    exists trail: seq<nat> ::
      && |trail| == (if top > level then top - level else 0) + 1
      && trail[0] == entry && trail[|trail| - 1] == start
      && forall i: nat :: i + 1 < |trail| ==> ClimbedTo(d, g.Layer(top - i), id, trail[i], trail[i + 1])
  }

  ghost predicate ClimbedTo(d: Between, layer: Layer, id: nat, a: nat, b: nat) {
    && b in layer && Reachable(layer, a, b) && d(id, b) <= d(id, a)
    && forall y :: y in layer[b] ==> d(id, b) <= d(id, y)
  }

  /** One layer of the insertion of id, which joins the layer without links. */
  ghost predicate JoinedLayer(d: Between, g: Graph, h: Graph, start: nat, width: nat, c: nat, l: nat)
    requires g.Stored() && h.Stored()
  {
    LayerPlaced(d, g.Layer(l)[g.count := []], h.Layer(l), g.count, StartOn(h, g.count, start, c, l), width,
                g.arena.m, if l == 0 then 2 * g.arena.m else g.arena.m)
  }

  /** g became h by inserting the node of the next slot at this level: the slot's node joins the layers
      up to its level; those it shares with the entry point are connected, from the end of the descent
      on; every other layer stays as it was. */
  ghost predicate Placed(d: Between, g: Graph, h: Graph, width: nat, level: nat, entry: nat, top: nat) {
    var id, c := g.count, if level < top then level else top;
    && g.Stored() && h.Stored() && h.count == id + 1
    && (forall l: nat :: g.count == 0 || l > c ==> h.Layer(l) == if l <= level then g.Layer(l)[id := []] else g.Layer(l))
    && (g.count > 0 ==> exists start: nat ::
          ClimbedDown(d, g, id, top, level, entry, start) && AllJoined(d, g, h, start, width, c))
  }

  ghost predicate AllJoined(d: Between, g: Graph, h: Graph, start: nat, width: nat, c: nat)
    requires g.Stored() && h.Stored()
  {
    forall l: nat :: l <= c ==> JoinedLayer(d, g, h, start, width, c, l)
  }

  /** The links of a new node: picked from what a search found, at most as many nodes as the beam is
      wide, all of them on the layer before. */
  ghost predicate LinksPicked(d: Between, layer: Layer, id: nat, width: nat, m: nat, found: set<nat>, links: seq<nat>) {
    && 0 < |found| <= width && id !in found && (forall x :: x in found ==> x in layer)
    && Selected(d, id, found, m, links)
  }

  lemma PlacedLayer(d: Between, g: Graph, h: Graph, width: nat, level: nat, entry: nat, top: nat, l: nat) returns (found: set<nat>)
    requires Placed(d, g, h, width, level, entry, top) && g.count > 0 && l <= level && l <= top
    ensures g.count in h.Layer(l) && h.Layer(l).Keys == g.Layer(l)[g.count := []].Keys
    ensures LinksPicked(d, g.Layer(l)[g.count := []], g.count, width, g.arena.m, found, h.Layer(l)[g.count])
    ensures forall n :: n in g.Layer(l) && n != g.count ==>
      TookIn(d, n, g.count, n in h.Layer(l)[g.count], if l == 0 then 2 * g.arena.m else g.arena.m, g.Layer(l)[n], h.Layer(l)[n])
  {
    var c := if level < top then level else top;
    var start: nat :| ClimbedDown(d, g, g.count, top, level, entry, start) && AllJoined(d, g, h, start, width, c);
    assert JoinedLayer(d, g, h, start, width, c, l);
    found := JoinedPicks(d, g, h, start, width, c, l);
  }

  lemma JoinedPicks(d: Between, g: Graph, h: Graph, start: nat, width: nat, c: nat, l: nat) returns (found: set<nat>)
    requires g.Stored() && h.Stored() && JoinedLayer(d, g, h, start, width, c, l)
    ensures g.count in h.Layer(l) && h.Layer(l).Keys == g.Layer(l)[g.count := []].Keys
    ensures LinksPicked(d, g.Layer(l)[g.count := []], g.count, width, g.arena.m, found, h.Layer(l)[g.count])
    ensures forall n :: n in g.Layer(l) && n != g.count ==>
      TookIn(d, n, g.count, n in h.Layer(l)[g.count], if l == 0 then 2 * g.arena.m else g.arena.m, g.Layer(l)[n], h.Layer(l)[n])
  {
    var cap := if l == 0 then 2 * g.arena.m else g.arena.m;
    found := LayerPicks(d, g.Layer(l)[g.count := []], h.Layer(l), g.count, StartOn(h, g.count, start, c, l), width, g.arena.m, cap);
  }

  lemma LayerPicks(d: Between, before: Layer, after: Layer, id: nat, start: nat, width: nat, m: nat, cap: nat) returns (found: set<nat>)
    requires LayerPlaced(d, before, after, id, start, width, m, cap)
    ensures after.Keys == before.Keys && id in after && LinksPicked(d, before, id, width, m, found, after[id])
    ensures forall n :: n in before && n != id ==> TookIn(d, n, id, n in after[id], cap, before[n], after[n])
  {
    found :| FoundFrom(d, before, id, start, width, found) && Selected(d, id, found, m, after[id]);
  }

  lemma DescentClimbs(d: Between, q: Query, g: Graph, k: Graph, id: nat, top: nat, level: nat, entry: nat, start: nat, width: nat)
    requires g.Stored() && k.Stored() && (forall l: nat :: l > level ==> k.Layer(l) == g.Layer(l))
    requires Descended(k, q.dist, top, level, entry, start) && PlacingQuery(d, q, id, width)
    ensures ClimbedDown(d, g, id, top, level, entry, start)
  {
    var trail :| IsDescent(k, q.dist, top, level, trail) && trail[0] == entry && trail[|trail| - 1] == start;
    forall i: nat | i + 1 < |trail| ensures ClimbedTo(d, g.Layer(top - i), id, trail[i], trail[i + 1]) {
      assert Climbed(k.Layer(top - i), q.dist, trail[i], trail[i + 1]);
    }
  }

  /** The end of the descent is a node of every layer to be connected. */
  lemma DescentEndsOn(g: Graph, dist: nat -> real, top: nat, level: nat, entry: nat, start: nat)
    requires g.Stored() && Descended(g, dist, top, level, entry, start) && entry < g.count && g.levels[entry] == top
    ensures start < g.count && g.levels[start] >= if level < top then level else top
  {
    var trail :| IsDescent(g, dist, top, level, trail) && trail[0] == entry && trail[|trail| - 1] == start;
    if |trail| > 1 {
      var i := |trail| - 2;
      assert Climbed(g.Layer(top - i), dist, trail[i], trail[i + 1]);
    }
  }

  /** The descent happens on layers the new node is not on, so it never gets there. */
  lemma DescentAvoids(g: Graph, dist: nat -> real, top: nat, level: nat, entry: nat, start: nat, id: nat)
    requires g.Stored() && Descended(g, dist, top, level, entry, start) && entry != id
    requires id < g.count && g.levels[id] == level
    ensures start != id
  {
    var trail :| IsDescent(g, dist, top, level, trail) && trail[0] == entry && trail[|trail| - 1] == start;
    if |trail| > 1 {
      var i := |trail| - 2;
      assert Climbed(g.Layer(top - i), dist, trail[i], trail[i + 1]);
    }
  }

  /** Whatever the insertion relation allows is placed by distances. */
  lemma InsertedIsPlaced(d: Between, q: Query, g: Graph, h: Graph, width: nat, level: nat, entry: nat, top: nat)
    requires g.Ok() && g.count < |g.levels| && g.count < |g.arena.upper| && g.arena.m >= 1
    requires Inserted(d, q, g, h, level, entry, top) && PlacingQuery(d, q, g.count, width)
    requires g.count > 0 ==> entry < g.count && g.levels[entry] == top && LevelsUpTo(g, top)
    ensures Placed(d, g, h, width, level, entry, top)
  {
    NodeStartsIsolated(g.arena, g.levels, g.count, level);
    if g.count > 0 {
      LinkedNodePlaced(d, q, g, Claim(g, level), h, width, level, entry, top);
    }
  }

  lemma LinkedNodePlaced(d: Between, q: Query, g: Graph, k: Graph, h: Graph, width: nat, level: nat, entry: nat, top: nat)
    requires g.Ok() && 0 < g.count < |g.levels| && g.count < |g.arena.upper| && g.arena.m >= 1 && k == Claim(g, level)
    requires k.Stored() && forall l: nat :: k.Layer(l) == if l <= level then g.Layer(l)[g.count := []] else g.Layer(l)
    requires Inserted(d, q, g, h, level, entry, top) && PlacingQuery(d, q, g.count, width)
    requires entry < g.count && g.levels[entry] == top && LevelsUpTo(g, top)
    ensures Placed(d, g, h, width, level, entry, top)
  {
    var id, c := g.count, if level < top then level else top;
    var start :| LinkedFrom(d, q, id, level, top, k, entry, start, h);
    DescentClimbs(d, q, g, k, id, top, level, entry, start, width);
    DescentEndsOn(k, q.dist, top, level, entry, start);
    DescentAvoids(k, q.dist, top, level, entry, start, id);
    ClaimIsPartial(g, level, top);
    LinkedIsPlaced(d, q, k, h, id, start, c, width);
    forall l: nat | l <= c ensures JoinedLayer(d, g, h, start, width, c, l) {
      assert PlacingOf(d, id, width, k.arena.m)(k.Layer(l), h.Layer(l), StartOn(h, id, start, c, l), k.Capacity(l));
    }
  }
}
