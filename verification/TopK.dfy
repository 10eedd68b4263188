/** What it means for a list to be the k nearest of a collection, and how such lists
    from disjoint parts combine. */
module TopK {
  import opened KeyTable

  datatype Hit = Hit(key: Key, dist: real)

  function Min(a: nat, b: nat): nat {
    if a <= b then a else b
  }

  predicate ByDistance(s: seq<Hit>) {
    forall i, j :: 0 <= i < j < |s| ==> s[i].dist <= s[j].dist
  }

  /** s holds min(k, |all|) of the hits, ascending, and none left out is nearer than one listed. */
  ghost predicate IsTopK(all: multiset<Hit>, k: nat, s: seq<Hit>) {
    && ByDistance(s)
    && multiset(s) <= all
    && |s| == Min(k, |all|)
    && forall x, y :: x in s && y in all - multiset(s) ==> x.dist <= y.dist
  }

  ghost predicate Within(a: multiset<Hit>, d: real) {
    forall x :: x in a ==> x.dist <= d
  }

  lemma SubMultisetSize(a: multiset<Hit>, b: multiset<Hit>)
    requires a <= b
    ensures |a| <= |b| && (|a| == |b| ==> a == b)
  {
    assert b == a + (b - a);
  }

  lemma MoreThanFit(a: multiset<Hit>, b: multiset<Hit>)
    requires |a| > |b|
    ensures exists x :: a[x] > b[x]
  {
    if a <= b {
      SubMultisetSize(a, b);
    }
  }

  lemma SplitAt(s: seq<Hit>, n: nat)
    requires n <= |s|
    ensures multiset(s) == multiset(s[..n]) + multiset(s[n..])
    ensures |multiset(s[..n])| == n && |multiset(s)| == |s|
  {
    assert s == s[..n] + s[n..];
  }

  lemma EarlierIsNearer(s: seq<Hit>, n: nat, y: Hit)
    requires ByDistance(s) && n <= |s| && y in multiset(s[n..])
    ensures forall x :: x in s[..n] ==> x.dist <= y.dist
    ensures s[n].dist <= y.dist
  {
    assert y in s[n..];
    var j :| 0 <= j < |s[n..]| && s[n..][j] == y;
    assert s[n + j] == y;
  }

  /** If an ascending list contains n hits within d, its first n hits are within d. */
  lemma NearOnesComeFirst(s: seq<Hit>, a: multiset<Hit>, d: real)
    requires ByDistance(s) && a <= multiset(s) && Within(a, d)
    ensures |a| <= |s| && forall i :: 0 <= i < |a| ==> s[i].dist <= d
  {
    SubMultisetSize(a, multiset(s));
    SplitAt(s, 0);
    forall n | 0 <= n < |a| ensures s[n].dist <= d {
      SplitAt(s, n);
      MoreThanFit(a, multiset(s[..n]));
      var x :| a[x] > multiset(s[..n])[x];
      EarlierIsNearer(s, n, x);
    }
  }

  /** Any two lists of the k nearest of one collection have the same distances, position by
      position; ties may be broken differently. */
  lemma TopKDistancesUnique(all: multiset<Hit>, k: nat, s: seq<Hit>, t: seq<Hit>)
    requires IsTopK(all, k, s) && IsTopK(all, k, t)
    ensures |s| == |t| && forall i :: 0 <= i < |s| ==> s[i].dist == t[i].dist
  {
    forall i | 0 <= i < |s| ensures s[i].dist == t[i].dist {
      NoSmaller(all, k, s, t, i);
      NoSmaller(all, k, t, s, i);
    }
  }

  lemma NoSmaller(all: multiset<Hit>, k: nat, s: seq<Hit>, t: seq<Hit>, i: nat)
    requires IsTopK(all, k, s) && IsTopK(all, k, t) && i < |s|
    ensures t[i].dist <= s[i].dist
  {
    var x := OneTooMany(s, t, i);
    if x in multiset(t[i..]) {
      EarlierIsNearer(t, i, x);
    } else {
      assert x in all - multiset(t) && t[i] in t;
    }
  }

  /** Of the first i + 1 of s, one is not among the first i of t. */
  lemma OneTooMany(s: seq<Hit>, t: seq<Hit>, i: nat) returns (x: Hit)
    requires ByDistance(s) && i < |s| && i <= |t|
    ensures x.dist <= s[i].dist
    ensures x in multiset(t[i..]) || multiset(t)[x] < multiset(s)[x]
  {
    SplitAt(s, i + 1);
    SplitAt(t, i);
    MoreThanFit(multiset(s[..i + 1]), multiset(t[..i]));
    x :| multiset(s[..i + 1])[x] > multiset(t[..i])[x];
    assert x in s[..i + 1];
    var j :| 0 <= j < i + 1 && s[..i + 1][j] == x;
    assert s[j] == x;
  }

  /** Every hit strictly nearer than the last one listed is listed, as often as it occurs;
      and if fewer than k are listed, all are. */
  lemma InsideCutoffIsListed(all: multiset<Hit>, k: nat, s: seq<Hit>, x: Hit)
    requires IsTopK(all, k, s) && x in all
    requires |s| < k || (s != [] && x.dist < s[|s| - 1].dist)
    ensures multiset(s)[x] == all[x]
  {
    if |s| < k {
      SplitAt(s, 0);
      SubMultisetSize(multiset(s), all);
    } else {
      assert s[|s| - 1] in s;
      assert x !in all - multiset(s);
    }
  }

  /** The first k of an ascending arrangement are a top k of it. */
  lemma PrefixIsTopK(s: seq<Hit>, k: nat)
    requires ByDistance(s)
    ensures IsTopK(multiset(s), k, s[..Min(k, |s|)])
  {
    var n := Min(k, |s|);
    SplitAt(s, n);
    assert multiset(s) - multiset(s[..n]) == multiset(s[n..]);
    forall x, y | x in s[..n] && y in multiset(s[n..]) ensures x.dist <= y.dist {
      EarlierIsNearer(s, n, y);
    }
  }

  ghost function Total(parts: seq<multiset<Hit>>): multiset<Hit> {
    if parts == [] then multiset{} else parts[0] + Total(parts[1..])
  }

  ghost function Flatten(lists: seq<seq<Hit>>): seq<Hit> {
    if lists == [] then [] else lists[0] + Flatten(lists[1..])
  }

  /** lists[i] is the k nearest of parts[i]. */
  ghost predicate Answers(parts: seq<multiset<Hit>>, k: nat, lists: seq<seq<Hit>>) {
    && |parts| == |lists|
    && forall i :: 0 <= i < |parts| ==> IsTopK(parts[i], k, lists[i])
  }

  lemma {:induction false} AnswersWithin(parts: seq<multiset<Hit>>, k: nat, lists: seq<seq<Hit>>)
    requires Answers(parts, k, lists)
    ensures multiset(Flatten(lists)) <= Total(parts)
  {
    if parts != [] {
      AnswersWithin(parts[1..], k, lists[1..]);
      assert IsTopK(parts[0], k, lists[0]);
    }
  }

  /** A hit that no list mentions often enough was cut by one part whose list is full and
      consists of hits at least as near. */
  lemma {:induction false} CutByFullList(parts: seq<multiset<Hit>>, k: nat, lists: seq<seq<Hit>>, y: Hit) returns (i: nat)
    requires Answers(parts, k, lists)
    requires multiset(Flatten(lists))[y] < Total(parts)[y]
    ensures i < |lists| && |lists[i]| == k && Within(multiset(lists[i]), y.dist)
    ensures multiset(lists[i]) <= multiset(Flatten(lists))
  {
    assert IsTopK(parts[0], k, lists[0]);
    assert multiset(Flatten(lists)) == multiset(lists[0]) + multiset(Flatten(lists[1..]));
    if multiset(lists[0])[y] < parts[0][y] {
      i := 0;
      CutHere(parts[0], k, lists[0], y);
    } else {
      i := CutByFullList(parts[1..], k, lists[1..], y);
      i := i + 1;
    }
  }

  lemma CutHere(part: multiset<Hit>, k: nat, list: seq<Hit>, y: Hit)
    requires IsTopK(part, k, list) && multiset(list)[y] < part[y]
    ensures |list| == k && Within(multiset(list), y.dist)
  {
    assert y in part - multiset(list);
    SplitAt(list, 0);
    SubMultisetSize(multiset(list), part);
  }

  /** Merging: sort everything the parts answered and cut to k; that is the k nearest of
      the whole. */
  lemma MergeIsTopK(parts: seq<multiset<Hit>>, k: nat, lists: seq<seq<Hit>>, merged: seq<Hit>)
    requires Answers(parts, k, lists)
    requires ByDistance(merged) && multiset(merged) == multiset(Flatten(lists))
    ensures IsTopK(Total(parts), k, merged[..Min(k, |merged|)])
  {
    var all, n := Total(parts), Min(k, |merged|);
    var s := merged[..n];
    AnswersWithin(parts, k, lists);
    PrefixIsTopK(merged, k);
    MergeLength(parts, k, lists, merged);
    forall x, y | x in s && y in all - multiset(s) ensures x.dist <= y.dist {
      if y !in multiset(merged) - multiset(s) {
        CutIsFarther(parts, k, lists, merged, x, y);
      }
    }
  }

  /** A hit some part cut off is no nearer than any of the first k of the merged list. */
  lemma CutIsFarther(parts: seq<multiset<Hit>>, k: nat, lists: seq<seq<Hit>>, merged: seq<Hit>, x: Hit, y: Hit)
    requires Answers(parts, k, lists) && ByDistance(merged) && multiset(merged) == multiset(Flatten(lists))
    requires multiset(Flatten(lists))[y] < Total(parts)[y] && x in merged[..Min(k, |merged|)]
    ensures x.dist <= y.dist
  {
    var i := CutByFullList(parts, k, lists, y);
    NearOnesComeFirst(merged, multiset(lists[i]), y.dist);
    assert |multiset(lists[i])| == k;
    var j :| 0 <= j < Min(k, |merged|) && merged[..Min(k, |merged|)][j] == x;
    assert merged[j] == x;
  }

  lemma MergeLength(parts: seq<multiset<Hit>>, k: nat, lists: seq<seq<Hit>>, merged: seq<Hit>)
    requires Answers(parts, k, lists) && multiset(merged) == multiset(Flatten(lists))
    ensures Min(k, |merged|) == Min(k, |Total(parts)|)
  {
    var all := Total(parts);
    AnswersWithin(parts, k, lists);
    assert |multiset(merged)| == |merged|;
    SubMultisetSize(multiset(merged), all);
    if multiset(merged) != all {
      var y :| multiset(merged)[y] < all[y];
      var i := CutByFullList(parts, k, lists, y);
      SubMultisetSize(multiset(lists[i]), multiset(merged));
      assert |multiset(lists[i])| == k;
    }
  }
}
