/** What the union length does on lists with reversed spans, in terms of the list itself. */
module SpansReversed {
  import opened Sorting
  import opened Spans

  predicate Reversed(span: Span) {
    span.1 < span.0
  }

  // ----- on the sorted list -----

  /** Some span in front of position `j` reaches to where span `j` starts. */
  predicate ReachedBefore(sorted: seq<Span>, j: nat)
    requires j < |sorted|
  {
    exists i :: 0 <= i < j && sorted[i].1 >= sorted[j].0
  }

  predicate ReversedReached(sorted: seq<Span>) {
    forall j :: 0 <= j < |sorted| && Reversed(sorted[j]) ==> ReachedBefore(sorted, j)
  }

  /** The last merged span ends where some span ends, and nothing that starts no earlier is overtaken by it. */
  predicate Tracks(sorted: seq<Span>, last: Span) {
    && (forall i :: 0 <= i < |sorted| ==> sorted[i].1 <= last.1 || sorted[i].1 < last.0)
    && (exists i :: 0 <= i < |sorted| && sorted[i].1 == last.1)
  }

  lemma TrackedReach(front: seq<Span>, last: Span, next: Span)
    requires Tracks(front, last) && last.0 <= next.0
    ensures ReachedBefore(front + [next], |front|) <==> next.0 <= last.1
  {
    var all := front + [next];
    assert forall i :: 0 <= i < |front| ==> all[i] == front[i];
    if next.0 <= last.1 {
      var i :| 0 <= i < |front| && front[i].1 == last.1;
      assert all[i].1 >= all[|front|].0;
    }
  }

  lemma ReversedSnoc(front: seq<Span>, next: Span)
    ensures ReversedReached(front + [next]) <==>
            ReversedReached(front) && (Reversed(next) ==> ReachedBefore(front + [next], |front|))
  {
    var all := front + [next];
    assert all[|front|] == next;
    forall j | 0 <= j < |front| ensures all[j] == front[j] && (ReachedBefore(all, j) <==> ReachedBefore(front, j)) {
      if i :| 0 <= i < j && front[i].1 >= front[j].0 {
        assert all[i].1 >= all[j].0;
      }
      if i :| 0 <= i < j && all[i].1 >= all[j].0 {
        assert front[i].1 >= front[j].0;
      }
    }
  }

  lemma TracksNext(front: seq<Span>, last: Span, next: Span)
    requires Tracks(front, last) && last.0 <= next.0
    ensures Tracks(front + [next], if next.0 <= last.1 then Widened(last, next) else next)
  {
    var all := front + [next];
    assert all[|front|] == next && forall i :: 0 <= i < |front| ==> all[i] == front[i];
    var i :| 0 <= i < |front| && front[i].1 == last.1;
    assert all[i].1 == last.1;
  }

  lemma AbsorbedProper(before: seq<Span>, last: Span, next: Span)
    requires last.0 <= next.0
    ensures Proper(Absorbed(before + [last], next)) <==>
            Proper(before + [last]) && (Reversed(next) ==> next.0 <= last.1)
  {
    AbsorbedIs(before, last, next);
    ProperSnoc(before, last);
    if next.0 <= last.1 {
      ProperSnoc(before, Widened(last, next));
    } else {
      ProperSnoc(before + [last], next);
    }
  }

  /** What is kept while merging: where the last merged span stands, and whether anything reversed has survived. */
  predicate Following(sorted: seq<Span>)
    requires sorted != []
  {
    var merged := Merged(sorted);
    var last := merged[|merged| - 1];
    last.0 <= sorted[|sorted| - 1].0 && Tracks(sorted, last) && (Proper(merged) <==> ReversedReached(sorted))
  }

  lemma FollowingStep(front: seq<Span>, next: Span)
    requires front != [] && Following(front) && front[|front| - 1].0 <= next.0
    ensures Following(front + [next])
  {
    var merged := Merged(front);
    var before, last := merged[..|merged| - 1], merged[|merged| - 1];
    assert merged == before + [last];
    MergedSnoc(front, next, before, last);
    AbsorbedIs(before, last, next);
    AbsorbedProper(before, last, next);
    TrackedReach(front, last, next);
    TracksNext(front, last, next);
    ReversedSnoc(front, next);
  }

  lemma FollowingOne(span: Span)
    ensures Following([span])
  {
    assert Merged([span]) == [span] && [span][0].1 == span.1;
  }

  lemma {:induction false} MergedFollows(sorted: seq<Span>)
    requires sorted != [] && SortedBy(sorted, StartsNotAfter)
    ensures Following(sorted)
  {
    if |sorted| > 1 {
      var front, next := sorted[..|sorted| - 1], sorted[|sorted| - 1];
      MergedFollows(front);
      assert StartsNotAfter(sorted[|sorted| - 2], next);
      FollowingStep(front, next);
      assert sorted == front + [next];
    } else {
      FollowingOne(sorted[0]);
      assert sorted == [sorted[0]];
    }
  }

  // ----- on the list as it comes -----

  type Tagged = (Span, int)

  function Tag(spans: seq<Span>): seq<Tagged> {
    seq(|spans|, i requires 0 <= i < |spans| => (spans[i], i))
  }

  function Untag(tagged: seq<Tagged>): seq<Span> {
    seq(|tagged|, i requires 0 <= i < |tagged| => tagged[i].0)
  }

  predicate TagNotAfter(a: Tagged, b: Tagged) {
    StartsNotAfter(a.0, b.0)
  }

  /** By start, and by position among equal starts. */
  predicate Earlier(a: Tagged, b: Tagged) {
    a.0.0 < b.0.0 || (a.0.0 == b.0.0 && a.1 < b.1)
  }

  predicate InOrder(tagged: seq<Tagged>) {
    forall i, j :: 0 <= i < j < |tagged| ==> Earlier(tagged[i], tagged[j])
  }

  lemma UntagSnoc(front: seq<Tagged>, last: Tagged)
    ensures Untag(front + [last]) == Untag(front) + [last.0]
  {
  }

  lemma InsertSnoc<T>(front: seq<T>, last: T, x: T, le: (T, T) -> bool)
    ensures InsertBy(front + [last], x, le) ==
            if le(last, x) then front + [last] + [x] else InsertBy(front, x, le) + [last]
  {
    assert (front + [last])[..|front|] == front;
  }

  lemma {:induction false} UntagInsert(tagged: seq<Tagged>, x: Tagged)
    ensures Untag(InsertBy(tagged, x, TagNotAfter)) == InsertBy(Untag(tagged), x.0, StartsNotAfter)
  {
    if tagged != [] {
      var front, last := tagged[..|tagged| - 1], tagged[|tagged| - 1];
      assert tagged == front + [last];
      UntagInsert(front, x);
      UntagInsertStep(front, last, x);
    }
  }

  lemma UntagInsertStep(front: seq<Tagged>, last: Tagged, x: Tagged)
    requires Untag(InsertBy(front, x, TagNotAfter)) == InsertBy(Untag(front), x.0, StartsNotAfter)
    ensures Untag(InsertBy(front + [last], x, TagNotAfter)) == InsertBy(Untag(front + [last]), x.0, StartsNotAfter)
  {
    InsertSnoc(front, last, x, TagNotAfter);
    UntagSnoc(front, last);
    InsertSnoc(Untag(front), last.0, x.0, StartsNotAfter);
    UntagSnoc(front + [last], x);
    UntagSnoc(InsertBy(front, x, TagNotAfter), last);
  }

  lemma {:induction false} UntagSort(tagged: seq<Tagged>)
    ensures Untag(SortBy(tagged, TagNotAfter)) == SortBy(Untag(tagged), StartsNotAfter)
  {
    if tagged != [] {
      var front, last := tagged[..|tagged| - 1], tagged[|tagged| - 1];
      var spans := Untag(tagged);
      assert spans[..|spans| - 1] == Untag(front) && spans[|spans| - 1] == last.0;
      UntagSort(front);
      UntagInsert(SortBy(front, TagNotAfter), last);
    }
  }

  lemma OrderSnoc(tagged: seq<Tagged>, x: Tagged)
    requires InOrder(tagged) && forall y :: y in tagged ==> Earlier(y, x)
    ensures InOrder(tagged + [x])
  {
    var all := tagged + [x];
    forall i, j | 0 <= i < j < |all| ensures Earlier(all[i], all[j]) {
      assert all[i] in tagged;
    }
  }

  /** The sort is stable: a later position goes behind equal starts. */
  lemma {:induction false} InsertInOrder(tagged: seq<Tagged>, x: Tagged)
    requires InOrder(tagged) && forall y :: y in tagged ==> y.1 < x.1
    ensures InOrder(InsertBy(tagged, x, TagNotAfter))
  {
    if tagged == [] {
    } else {
      var front, last := tagged[..|tagged| - 1], tagged[|tagged| - 1];
      forall y | y in front ensures Earlier(y, last) {
        var i :| 0 <= i < |front| && front[i] == y;
        assert Earlier(tagged[i], tagged[|tagged| - 1]);
      }
      if TagNotAfter(last, x) {
        assert tagged == front + [last];
        OrderSnoc(tagged, x);
      } else {
        InsertInOrder(front, x);
        var r := InsertBy(front, x, TagNotAfter);
        forall y | y in r ensures Earlier(y, last) {
          assert y in multiset(r);
          assert y in front || y == x;
        }
        OrderSnoc(r, last);
      }
    }
  }

  lemma SortOneMore(front: seq<Tagged>, x: Tagged)
    requires InOrder(SortBy(front, TagNotAfter)) && forall y :: y in front ==> y.1 < x.1
    ensures InOrder(SortBy(front + [x], TagNotAfter))
  {
    var sorted := SortBy(front, TagNotAfter);
    forall y | y in sorted ensures y.1 < x.1 {
      assert y in multiset(sorted);
      assert y in front;
    }
    InsertInOrder(sorted, x);
    assert (front + [x])[..|front|] == front;
  }

  lemma {:induction false} TagsInOrder(spans: seq<Span>)
    ensures InOrder(SortBy(Tag(spans), TagNotAfter))
  {
    if spans != [] {
      var front, n := spans[..|spans| - 1], |spans| - 1;
      TagsInOrder(front);
      assert Tag(spans) == Tag(front) + [(spans[n], n)];
      SortOneMore(Tag(front), (spans[n], n));
    }
  }

  /** Every reversed span starts inside or at the end of a span placed before it, by start and then by position. */
  predicate Sheltered(spans: seq<Span>) {
    forall q :: 0 <= q < |spans| && Reversed(spans[q]) ==> ShelteredAt(spans, q)
  }

  predicate ShelteredAt(spans: seq<Span>, q: nat)
    requires q < |spans|
  {
    exists p :: 0 <= p < |spans| && Earlier((spans[p], p), (spans[q], q)) && spans[p].1 >= spans[q].0
  }

  lemma PlaceOf(spans: seq<Span>, tagged: seq<Tagged>, j: nat) returns (q: nat)
    requires multiset(tagged) == multiset(Tag(spans)) && j < |tagged|
    ensures q < |spans| && tagged[j] == (spans[q], q)
  {
    var tags := Tag(spans);
    assert tagged[j] in multiset(tagged);
    assert tagged[j] in tags;
    q :| 0 <= q < |tags| && tags[q] == tagged[j];
  }

  lemma PlaceFor(spans: seq<Span>, tagged: seq<Tagged>, q: nat) returns (j: nat)
    requires multiset(tagged) == multiset(Tag(spans)) && q < |spans|
    ensures j < |tagged| && tagged[j] == (spans[q], q)
  {
    var tags := Tag(spans);
    assert tags[q] in multiset(tags);
    assert tags[q] in tagged;
    j :| 0 <= j < |tagged| && tagged[j] == tags[q];
  }

  /** Position `j` of the sorted list holds span `q` of the list as it comes. */
  lemma SamePlace(spans: seq<Span>, tagged: seq<Tagged>, j: nat, q: nat)
    requires InOrder(tagged) && multiset(tagged) == multiset(Tag(spans))
    requires j < |tagged| && q < |spans| && tagged[j] == (spans[q], q)
    ensures ReachedBefore(Untag(tagged), j) <==> ShelteredAt(spans, q)
  {
    var sorted := Untag(tagged);
    if i :| 0 <= i < j && sorted[i].1 >= sorted[j].0 {
      var p := PlaceOf(spans, tagged, i);
      assert Earlier(tagged[i], tagged[j]) && spans[p].1 >= spans[q].0;
    }
    if p :| 0 <= p < |spans| && Earlier((spans[p], p), (spans[q], q)) && spans[p].1 >= spans[q].0 {
      var i := PlaceFor(spans, tagged, p);
      assert i < j || Earlier(tagged[j], tagged[i]) || i == j;
      assert sorted[i].1 >= sorted[j].0;
    }
  }

  lemma ShelteredInOrder(spans: seq<Span>, tagged: seq<Tagged>)
    requires InOrder(tagged) && multiset(tagged) == multiset(Tag(spans))
    ensures ReversedReached(Untag(tagged)) <==> Sheltered(spans)
  {
    var sorted := Untag(tagged);
    if Sheltered(spans) {
      forall j | 0 <= j < |sorted| && Reversed(sorted[j]) ensures ReachedBefore(sorted, j) {
        var q := PlaceOf(spans, tagged, j);
        SamePlace(spans, tagged, j, q);
      }
    }
    if ReversedReached(sorted) {
      forall q | 0 <= q < |spans| && Reversed(spans[q]) ensures ShelteredAt(spans, q) {
        var j := PlaceFor(spans, tagged, q);
        SamePlace(spans, tagged, j, q);
      }
    }
  }

  lemma ShelteredWhenSorted(spans: seq<Span>)
    ensures ReversedReached(SortBy(spans, StartsNotAfter)) <==> Sheltered(spans)
  {
    assert Untag(Tag(spans)) == spans;
    TagsInOrder(spans);
    UntagSort(Tag(spans));
    ShelteredInOrder(spans, SortBy(Tag(spans), TagNotAfter));
  }

  /** The computed length is the number of covered positions exactly when every reversed span is sheltered. */
  lemma UnionLengthOfInput(spans: seq<Span>)
    ensures UnionLength(spans) == |Covered(spans)| <==> Sheltered(spans)
  {
    UnionLengthExactly(spans);
    ShelteredWhenSorted(spans);
    if spans != [] {
      SortBySorts(spans, StartsNotAfter);
      MergedFollows(SortBy(spans, StartsNotAfter));
    }
  }
}
