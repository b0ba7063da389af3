/**
 The best `k` of many scored candidates: the one-shot selection a partition search makes, the
 bounded collector for streamed candidates, and why they agree on the scores.

 Scores are integers: only the total order of the floats matters here.
 */
module Ranking {

  datatype Scored<T> = Scored(item: T, score: int)

  predicate Descending<T>(s: seq<Scored<T>>) {
    forall i, j :: 0 <= i < j < |s| ==> s[i].score >= s[j].score
  }

  function Scores<T>(s: seq<Scored<T>>): (r: seq<int>)
    ensures |r| == |s|
    ensures forall i :: 0 <= i < |s| ==> r[i] == s[i].score
  {
    seq(|s|, i requires 0 <= i < |s| => s[i].score)
  }

  /** `kept` is a best choice of at most `k` from `all`, and `left` is what it passed over. */
  ghost predicate SplitsBest<T>(k: nat, all: seq<Scored<T>>, kept: seq<Scored<T>>, left: seq<Scored<T>>) {
    && multiset(all) == multiset(kept + left)
    && |kept| == (if k < |all| then k else |all|)
    && forall a, b :: a in kept && b in left ==> b.score <= a.score
  }

  ghost predicate BestOf<T(!new)>(k: nat, all: seq<Scored<T>>, kept: seq<Scored<T>>) {
    exists left :: SplitsBest(k, all, kept, left)
  }

  // ── The scores of a best choice are determined ──────────────────────────────

  ghost predicate DescendingInts(s: seq<int>) {
    forall i, j :: 0 <= i < j < |s| ==> s[i] >= s[j]
  }

  function Without<X>(s: seq<X>, i: nat): (r: seq<X>)
    requires i < |s|
  {
    s[..i] + s[i + 1..]
  }

  lemma WithoutMembers<X>(s: seq<X>, i: nat)
    requires i < |s|
    ensures multiset(s) == multiset(Without(s, i)) + multiset{s[i]} && |Without(s, i)| == |s| - 1
  {
    assert s == s[..i] + [s[i]] + s[i + 1..];
  }

  lemma OneLessEach<X>(a: seq<X>, i: nat, b: seq<X>, j: nat)
    requires multiset(a) == multiset(b) && i < |a| && j < |b| && a[i] == b[j]
    ensures multiset(Without(a, i)) == multiset(Without(b, j))
  {
    WithoutMembers(a, i);
    WithoutMembers(b, j);
    assert multiset(Without(a, i)) == multiset(a) - multiset{a[i]};
    assert multiset(Without(b, j)) == multiset(b) - multiset{b[j]};
  }

  lemma SameMembers<X>(a: seq<X>, b: seq<X>)
    requires multiset(a) == multiset(b)
    ensures |a| == |b| && forall x :: x in a <==> x in b
  {
    assert |multiset(a)| == |a| && |multiset(b)| == |b|;
    forall x ensures x in a <==> x in b {
      assert x in a <==> x in multiset(a);
      assert x in b <==> x in multiset(b);
    }
  }

  lemma {:induction false} DescendingUnique(a: seq<int>, b: seq<int>)
    requires DescendingInts(a) && DescendingInts(b) && multiset(a) == multiset(b)
    ensures a == b
    decreases |a|
  {
    hide *;
    SameMembers(a, b);
    if a != [] {
      FirstIsLargest(a, b[0]);
      FirstIsLargest(b, a[0]);
      OneLessEach(a, 0, b, 0);
      DescendingUnique(Without(a, 0), Without(b, 0));
    }
  }

  lemma FirstIsLargest(a: seq<int>, x: int)
    requires DescendingInts(a) && a != []
    ensures x in a ==> x <= a[0]
    ensures DescendingInts(Without(a, 0)) && |Without(a, 0)| == |a| - 1 && a == [a[0]] + Without(a, 0)
  {
    assert Without(a, 0) == a[1..];
  }

  lemma {:induction false} SameMembersSameScores<T>(a: seq<Scored<T>>, b: seq<Scored<T>>)
    requires multiset(a) == multiset(b)
    ensures multiset(Scores(a)) == multiset(Scores(b))
    decreases |a|
  {
    SameMembers(a, b);
    if a != [] {
      assert a[0] in b;
      var i :| 0 <= i < |b| && b[i] == a[0];
      OneLessEach(a, 0, b, i);
      SameMembersSameScores(Without(a, 0), Without(b, i));
      ScoresWithout(a, 0);
      ScoresWithout(b, i);
    }
  }

  lemma ScoresWithout<T>(s: seq<Scored<T>>, i: nat)
    requires i < |s|
    ensures multiset(Scores(s)) == multiset(Scores(Without(s, i))) + multiset{s[i].score}
  {
    assert Scores(Without(s, i)) == Without(Scores(s), i);
    WithoutMembers(Scores(s), i);
  }

  /** Two best choices from the same candidates, each listed best first, have the same scores in the same places. */
  lemma BestScoresAgree<T(!new)>(k: nat, all: seq<Scored<T>>, a: seq<Scored<T>>, b: seq<Scored<T>>)
    requires BestOf(k, all, a) && BestOf(k, all, b) && Descending(a) && Descending(b)
    ensures Scores(a) == Scores(b)
  {
    var sortedA := Completed(k, all, a);
    var sortedB := Completed(k, all, b);
    SameMembersSameScores(a + sortedA, b + sortedB);
    DescendingUnique(Scores(a + sortedA), Scores(b + sortedB));
    assert Scores(a) == Scores(a + sortedA)[..|a|] && Scores(b) == Scores(b + sortedB)[..|b|];
  }

  /** A best choice goes on to a descending list of all the candidates. */
  lemma Completed<T(!new)>(k: nat, all: seq<Scored<T>>, kept: seq<Scored<T>>) returns (rest: seq<Scored<T>>)
    requires BestOf(k, all, kept) && Descending(kept)
    ensures multiset(kept + rest) == multiset(all) && DescendingInts(Scores(kept + rest))
    ensures |kept| == if k < |all| then k else |all|
  {
    var left :| SplitsBest(k, all, kept, left);
    rest := SortedCopy(left);
    DescendingJoin(kept, left, rest);
    assert multiset(kept + rest) == multiset(kept) + multiset(left) == multiset(kept + left);
  }

  lemma DescendingJoin<T>(a: seq<Scored<T>>, left: seq<Scored<T>>, sorted: seq<Scored<T>>)
    requires Descending(a) && Descending(sorted) && multiset(sorted) == multiset(left)
    requires forall x, y :: x in a && y in left ==> y.score <= x.score
    ensures DescendingInts(Scores(a + sorted))
  {
    forall y | y in sorted ensures y in left { assert y in multiset(sorted); }
  }

  // ── What a best choice is, of different items ───────────────────────────────

  /** No item is listed twice. */
  ghost predicate Different<T>(s: seq<Scored<T>>) {
    forall i, j :: 0 <= i < j < |s| ==> s[i].item != s[j].item
  }

  lemma {:induction false} OnceEach<T>(s: seq<Scored<T>>, x: Scored<T>)
    requires Different(s)
    ensures multiset(s)[x] <= 1
  {
    if s != [] {
      var n := |s| - 1;
      OnceEach(s[..n], x);
      assert s == s[..n] + [s[n]];
      if s[n] == x { assert x !in s[..n]; }
    }
  }

  lemma TwiceThere<X>(s: seq<X>, i: nat, j: nat)
    requires i < j < |s| && s[i] == s[j]
    ensures multiset(s)[s[i]] >= 2
  {
    assert s == s[..j] + [s[j]] + s[j + 1..];
    assert s[..j][i] == s[i];
  }

  /**
   A best choice of different items, said member by member: some of them, each once, as many as asked for
   or there are, and whatever is not chosen scores no more than anything chosen.
   */
  lemma BestMeans<T(!new)>(k: nat, all: seq<Scored<T>>, best: seq<Scored<T>>)
    requires BestOf(k, all, best) && Different(all)
    ensures Different(best) && |best| == (if k < |all| then k else |all|)
    ensures forall c :: c in best ==> c in all
    ensures forall c, b :: c in all && c !in best && b in best ==> c.score <= b.score
  {
    var left :| SplitsBest(k, all, best, left);
    forall c | c in best ensures c in all {
      assert c in multiset(best + left);
      assert c in multiset(all);
    }
    forall i, j | 0 <= i < j < |best| ensures best[i].item != best[j].item {
      if best[i].item == best[j].item {
        SameItemSame(all, best[i], best[j]);
        TwiceThere(best + left, i, j);
        OnceEach(all, best[i]);
      }
    }
    forall c, b | c in all && c !in best && b in best ensures c.score <= b.score {
      assert c in multiset(all);
      assert c in multiset(best + left);
      assert c in left;
    }
  }

  lemma SameItemSame<T>(all: seq<Scored<T>>, a: Scored<T>, b: Scored<T>)
    requires Different(all) && a in all && b in all && a.item == b.item
    ensures a == b
  {}

  // ── Sorting ─────────────────────────────────────────────────────────────────

  function Inserted<T>(x: Scored<T>, s: seq<Scored<T>>): (r: seq<Scored<T>>)
    ensures multiset(r) == multiset(s) + multiset{x}
  {
    if s == [] || x.score > s[0].score then [x] + s
    else
      assert s == [s[0]] + s[1..];
      [s[0]] + Inserted(x, s[1..])
  }

  lemma {:induction false} InsertedDescends<T>(x: Scored<T>, s: seq<Scored<T>>)
    requires Descending(s)
    ensures Descending(Inserted(x, s))
  {
    if s != [] && x.score <= s[0].score {
      InsertedDescends(x, s[1..]);
      var rest := Inserted(x, s[1..]);
      forall y | y in rest ensures y.score <= s[0].score {
        assert y in multiset(rest);
      }
    }
  }

  /** A stable descending sort. */
  function SortedCopy<T>(s: seq<Scored<T>>): (r: seq<Scored<T>>)
    ensures multiset(r) == multiset(s) && Descending(r)
  {
    if s == [] then []
    else
      var last, before := s[|s| - 1], SortedCopy(s[..|s| - 1]);
      assert s == s[..|s| - 1] + [last];
      InsertedDescends(last, before);
      Inserted(last, before)
  }

  // ── One-shot selection ──────────────────────────────────────────────────────

  /** What `select_nth_unstable_by` gives: nothing before position `n` is worse than it, nothing after it better. */
  ghost predicate SelectedAt<T>(s: seq<Scored<T>>, n: nat) {
    && n < |s|
    && (forall i :: 0 <= i < n ==> s[i].score >= s[n].score)
    && (forall i :: n < i < |s| ==> s[i].score <= s[n].score)
  }

  method SelectNth<T>(s: seq<Scored<T>>, n: nat) returns (r: seq<Scored<T>>)
    requires n < |s|
    ensures multiset(r) == multiset(s) && SelectedAt(r, n)
  {
    r := SortedCopy(s);
    assert |r| == |multiset(r)| == |multiset(s)| == |s|;
  }

  /** The best `k` of a list, best first. */
  method SelectBest<T(!new, ==)>(k: nat, scored: seq<Scored<T>>) returns (r: seq<Scored<T>>)
    ensures BestOf(k, scored, r) && Descending(r)
  {
    var n := if k < |scored| then k else |scored|;
    if n == 0 {
      assert SplitsBest(k, scored, [], scored);
      return [];
    }
    var selected := SelectNth(scored, n - 1);
    assert |selected| == |multiset(selected)| == |multiset(scored)| == |scored|;
    r := SortedCopy(selected[..n]);
    SelectionIsBest(k, scored, selected, n);
    Rearranged(k, scored, selected[..n], selected[n..], r);
  }

  lemma SelectionIsBest<T>(k: nat, all: seq<Scored<T>>, selected: seq<Scored<T>>, n: nat)
    requires multiset(selected) == multiset(all) && |selected| == |all|
    requires 0 < n == (if k < |all| then k else |all|) && SelectedAt(selected, n - 1)
    ensures SplitsBest(k, all, selected[..n], selected[n..])
  {
    assert selected == selected[..n] + selected[n..];
    forall a, b | a in selected[..n] && b in selected[n..] ensures b.score <= a.score {
      var i :| 0 <= i < n && selected[i] == a;
      var j :| n <= j < |selected| && selected[j] == b;
    }
  }

  // ── The collector ───────────────────────────────────────────────────────────

  /** A bounded best-`k` collector; the heap is a bag whose least member can be taken. */
  class TopK<T(!new, ==)> {
    const k: nat
    var heap: seq<Scored<T>>
    /** Every candidate pushed so far, and those that are not in the heap. */
    ghost var pushed: seq<Scored<T>>
    ghost var passed: seq<Scored<T>>

    ghost predicate Valid() reads this {
      SplitsBest(k, pushed, heap, passed)
    }

    constructor (k: nat)
      ensures Valid() && this.k == k && heap == [] && pushed == []
    {
      this.k, heap, pushed, passed := k, [], [], [];
    }

    /** The position of a least score in the heap. */
    method Peek() returns (least: nat)
      requires heap != []
      ensures least < |heap| && forall i :: 0 <= i < |heap| ==> heap[least].score <= heap[i].score
    {
      least := 0;
      for i := 1 to |heap|
        invariant least < i && forall j :: 0 <= j < i ==> heap[least].score <= heap[j].score
      {
        if heap[i].score < heap[least].score { least := i; }
      }
    }

    /** Whether a candidate with this score would be kept. */
    method Accepts(score: int) returns (ok: bool)
      ensures ok <==> k > 0 && (|heap| < k || exists a :: a in heap && a.score < score)
    {
      if k == 0 { return false; }
      if |heap| < k { return true; }
      var least := Peek();
      assert heap[least] in heap;
      ok := score > heap[least].score;
    }

    method Push(item: T, score: int)
      requires Valid()
      modifies this
      ensures Valid() && pushed == old(pushed) + [Scored(item, score)]
    {
      var candidate := Scored(item, score);
      var accepted := Accepts(score);
      if !accepted {
        PassOver(k, pushed, heap, passed, candidate);
        passed := passed + [candidate];
      } else if |heap| == k {
        var least := Peek();
        Displace(k, pushed, heap, passed, least, candidate);
        passed := passed + [heap[least]];
        heap := Without(heap, least) + [candidate];
      } else {
        TakeIn(k, pushed, heap, passed, candidate);
        heap := heap + [candidate];
      }
      pushed := pushed + [candidate];
    }

    /** The kept candidates, best first. */
    method IntoSorted() returns (r: seq<Scored<T>>)
      requires Valid()
      ensures BestOf(k, pushed, r) && Descending(r)
    {
      r := SortedCopy(heap);
      Rearranged(k, pushed, heap, passed, r);
    }
  }

  lemma PassOver<T>(k: nat, pushed: seq<Scored<T>>, heap: seq<Scored<T>>, passed: seq<Scored<T>>, c: Scored<T>)
    requires SplitsBest(k, pushed, heap, passed) && |heap| >= k
    requires k == 0 || forall a :: a in heap ==> a.score >= c.score
    ensures SplitsBest(k, pushed + [c], heap, passed + [c])
  {
    BagSizes(pushed, heap, passed);
    assert heap + (passed + [c]) == heap + passed + [c];
  }

  lemma TakeIn<T>(k: nat, pushed: seq<Scored<T>>, heap: seq<Scored<T>>, passed: seq<Scored<T>>, c: Scored<T>)
    requires SplitsBest(k, pushed, heap, passed) && |heap| < k
    ensures SplitsBest(k, pushed + [c], heap + [c], passed)
  {
    BagSizes(pushed, heap, passed);
    assert passed == [];
    assert heap + [c] + passed == heap + passed + [c];
  }

  lemma Displace<T>(k: nat, pushed: seq<Scored<T>>, heap: seq<Scored<T>>, passed: seq<Scored<T>>, least: nat, c: Scored<T>)
    requires SplitsBest(k, pushed, heap, passed) && |heap| == k && least < |heap|
    requires forall i :: 0 <= i < |heap| ==> heap[least].score <= heap[i].score
    requires exists a :: a in heap && a.score < c.score
    ensures SplitsBest(k, pushed + [c], Without(heap, least) + [c], passed + [heap[least]])
  {
    BagSizes(pushed, heap, passed);
    var rest := Without(heap, least);
    var kept, left := rest + [c], passed + [heap[least]];
    WithoutMembers(heap, least);
    assert multiset(kept + left) == multiset(rest) + multiset{c} + multiset(passed) + multiset{heap[least]};
    assert multiset(pushed + [c]) == multiset(heap) + multiset(passed) + multiset{c};
    forall a, b | a in kept && b in left ensures b.score <= a.score {
      assert heap[least] in heap;
      if a != c { assert a in heap; }
    }
  }

  lemma BagSizes<T>(pushed: seq<Scored<T>>, heap: seq<Scored<T>>, passed: seq<Scored<T>>)
    requires multiset(pushed) == multiset(heap + passed)
    ensures |pushed| == |heap| + |passed|
  {
    assert |multiset(pushed)| == |pushed| && |multiset(heap + passed)| == |heap + passed|;
  }

  lemma Rearranged<T(!new)>(k: nat, all: seq<Scored<T>>, kept: seq<Scored<T>>, left: seq<Scored<T>>, r: seq<Scored<T>>)
    requires SplitsBest(k, all, kept, left) && multiset(r) == multiset(kept)
    ensures BestOf(k, all, r)
  {
    assert |multiset(r)| == |r| && |multiset(kept)| == |kept|;
    assert multiset(r + left) == multiset(kept + left);
    forall a | a in r ensures a in kept { assert a in multiset(r); }
    assert SplitsBest(k, all, r, left);
  }

  /** Streaming through the collector and selecting at once give the same scores. */
  method StreamAgrees<T(!new, ==)>(k: nat, candidates: seq<Scored<T>>)
    returns (streamed: seq<Scored<T>>, selected: seq<Scored<T>>)
    ensures BestOf(k, candidates, streamed) && Descending(streamed)
    ensures BestOf(k, candidates, selected) && Descending(selected)
    ensures Scores(streamed) == Scores(selected)
  {
    var top := new TopK<T>(k);
    for i := 0 to |candidates|
      invariant top.Valid() && fresh(top) && top.k == k && top.pushed == candidates[..i]
    {
      top.Push(candidates[i].item, candidates[i].score);
      assert candidates[i] == Scored(candidates[i].item, candidates[i].score);
    }
    assert candidates[..|candidates|] == candidates;
    streamed := top.IntoSorted();
    selected := SelectBest(k, candidates);
    BestScoresAgree(k, candidates, streamed, selected);
  }
}
