/** Scored candidates and the priority queues that hold them. A queue is the set of its
    entries; which of several equally scored entries is on top is left open, as
    std::priority_queue leaves it. */
module Candidates {

  datatype Cand = Cand(dist: real, id: nat)

  /** Order of std::pair: by distance, then by id. */
  predicate Before(a: Cand, b: Cand) {
    a.dist < b.dist || (a.dist == b.dist && a.id < b.id)
  }

  predicate Ascending(s: seq<Cand>) {
    forall i, j :: 0 <= i < j < |s| ==> Before(s[i], s[j])
  }

  /** s lists exactly the entries of the queue, in ascending order. */
  ghost predicate SortingOf(s: seq<Cand>, queue: set<Cand>) {
    && Ascending(s)
    && (forall c :: c in s <==> c in queue)
  }

  lemma {:induction false} FirstExists(queue: set<Cand>)
    requires queue != {}
    ensures exists c :: c in queue && forall x :: x in queue ==> x == c || Before(c, x)
  {
    var c :| c in queue;
    if queue != {c} {
      FirstExists(queue - {c});
      var m :| m in queue - {c} && forall x :: x in queue - {c} ==> x == m || Before(m, x);
      var least := if Before(c, m) then c else m;
      assert forall x :: x in queue ==> x == c || x in queue - {c};
      assert forall x :: x in queue ==> x == least || Before(least, x);
    }
  }

  lemma {:induction false} LastExists(queue: set<Cand>)
    requires queue != {}
    ensures exists c :: c in queue && forall x :: x in queue ==> x == c || Before(x, c)
  {
    var c :| c in queue;
    if queue != {c} {
      LastExists(queue - {c});
      var m :| m in queue - {c} && forall x :: x in queue - {c} ==> x == m || Before(x, m);
      var greatest := if Before(m, c) then c else m;
      assert forall x :: x in queue ==> x == c || x in queue - {c};
      assert forall x :: x in queue ==> x == greatest || Before(x, greatest);
    }
  }

  /** Top of the min-heap (CloserFirst). */
  method Nearest(queue: set<Cand>) returns (c: Cand)
    requires queue != {}
    ensures c in queue && forall x :: x in queue ==> c.dist <= x.dist
  {
    FirstExists(queue);
    ghost var first :| first in queue && forall x :: x in queue ==> x == first || Before(first, x);
    assert forall x :: x in queue ==> first.dist <= x.dist;
    c :| c in queue && forall x :: x in queue ==> c.dist <= x.dist;
  }

  /** Top of the max-heap (FartherFirst). */
  method Farthest(queue: set<Cand>) returns (c: Cand)
    requires queue != {}
    ensures c in queue && forall x :: x in queue ==> x.dist <= c.dist
  {
    LastExists(queue);
    ghost var last :| last in queue && forall x :: x in queue ==> x == last || Before(x, last);
    assert forall x :: x in queue ==> x.dist <= last.dist;
    c :| c in queue && forall x :: x in queue ==> x.dist <= c.dist;
  }

  /** Draining a heap into a vector and sorting it. */
  method Sort(queue: set<Cand>) returns (s: seq<Cand>)
    ensures SortingOf(s, queue) && |s| == |queue|
  {
    var rest := queue;
    s := [];
    while rest != {}
      invariant rest <= queue && |s| + |rest| == |queue|
      invariant Ascending(s)
      invariant forall c :: c in queue <==> c in s || c in rest
      invariant forall i, x :: 0 <= i < |s| && x in rest ==> Before(s[i], x)
    {
      FirstExists(rest);
      var c :| c in rest && forall x :: x in rest ==> x == c || Before(c, x);
      rest := rest - {c};
      s := s + [c];
    }
  }
}
