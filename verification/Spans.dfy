/** Answer coverage by citation spans: the sort-and-merge length against the set of covered positions. */
module Spans {
  import opened Sorting

  type Span = (int, int)

  /** Half-open, `start <= end`, as the answer-span model validates. */
  predicate Proper(spans: seq<Span>) {
    forall i :: 0 <= i < |spans| ==> spans[i].0 <= spans[i].1
  }

  function Range(start: int, end: int): (r: set<int>)
    ensures forall x :: x in r <==> start <= x < end
    decreases end - start
  {
    if start >= end then {} else Range(start, end - 1) + {end - 1}
  }

  /** The positions covered by at least one span. */
  function Covered(spans: seq<Span>): set<int> {
    if spans == [] then {}
    else
      var last := spans[|spans| - 1];
      Covered(spans[..|spans| - 1]) + Range(last.0, last.1)
  }

  lemma {:induction false} CoveredExactly(spans: seq<Span>, x: int)
    ensures x in Covered(spans) <==> exists i :: 0 <= i < |spans| && spans[i].0 <= x < spans[i].1
  {
    if spans != [] {
      CoveredExactly(spans[..|spans| - 1], x);
    }
  }

  lemma {:induction false} RangeSize(start: int, end: int)
    requires start <= end
    ensures |Range(start, end)| == end - start
    decreases end - start
  {
    if start < end {
      RangeSize(start, end - 1);
    }
  }

  predicate StartsNotAfter(a: Span, b: Span) {
    a.0 <= b.0
  }

  // ----- the merged list -----

  function Widened(last: Span, next: Span): Span {
    (last.0, if last.1 >= next.1 then last.1 else next.1)
  }

  /** One turn of the merge loop. */
  function Absorbed(merged: seq<Span>, next: Span): seq<Span>
    requires merged != []
  {
    var last := merged[|merged| - 1];
    if next.0 <= last.1 then merged[..|merged| - 1] + [Widened(last, next)] else merged + [next]
  }

  function Merged(sorted: seq<Span>): (merged: seq<Span>)
    requires sorted != []
    ensures merged != []
  {
    if |sorted| == 1 then sorted else Absorbed(Merged(sorted[..|sorted| - 1]), sorted[|sorted| - 1])
  }

  function TotalLength(spans: seq<Span>): int {
    if spans == [] then 0
    else TotalLength(spans[..|spans| - 1]) + (spans[|spans| - 1].1 - spans[|spans| - 1].0)
  }

  /** Behind every span that is not reversed there is a gap. */
  predicate Gapped(merged: seq<Span>) {
    forall i, j :: 0 <= i < j < |merged| && merged[i].0 <= merged[i].1 ==> merged[i].1 < merged[j].0
  }

  lemma RangeLength(start: int, end: int)
    ensures end - start <= |Range(start, end)|
    ensures end - start == |Range(start, end)| <==> start <= end
  {
    if start <= end {
      RangeSize(start, end);
    }
  }

  lemma LastDisjoint(front: seq<Span>, last: Span)
    requires Gapped(front + [last])
    ensures Covered(front) !! Range(last.0, last.1)
  {
    var merged := front + [last];
    forall x | x in Covered(front) ensures x !in Range(last.0, last.1) {
      CoveredExactly(front, x);
      var i :| 0 <= i < |front| && front[i].0 <= x < front[i].1;
      assert merged[i] == front[i] && merged[|front|] == last;
    }
  }

  lemma TotalSnoc(front: seq<Span>, last: Span)
    ensures TotalLength(front + [last]) == TotalLength(front) + (last.1 - last.0)
  {
    assert (front + [last])[..|front|] == front;
  }

  predicate LengthOk(merged: seq<Span>) {
    && TotalLength(merged) <= |Covered(merged)|
    && (TotalLength(merged) == |Covered(merged)| <==> Proper(merged))
  }

  lemma LengthStep(front: seq<Span>, last: Span)
    requires Gapped(front + [last]) && LengthOk(front)
    ensures LengthOk(front + [last])
  {
    LastDisjoint(front, last);
    RangeLength(last.0, last.1);
    CoveredSnoc(front, last);
    TotalSnoc(front, last);
    ProperSnoc(front, last);
    assert |Covered(front + [last])| == |Covered(front)| + |Range(last.0, last.1)|;
  }

  /** Over gapped spans the lengths add up to the cover, less what reversed spans subtract. */
  lemma {:induction false} GappedLength(merged: seq<Span>)
    requires Gapped(merged)
    ensures LengthOk(merged)
  {
    if merged != [] {
      var front, last := merged[..|merged| - 1], merged[|merged| - 1];
      assert merged == front + [last];
      GappedLast(front, last);
      GappedLength(front);
      LengthStep(front, last);
    }
  }

  lemma CoveredSnoc(spans: seq<Span>, s: Span)
    ensures Covered(spans + [s]) == Covered(spans) + Range(s.0, s.1)
  {
    assert (spans + [s])[..|spans|] == spans;
  }

  lemma SameSpansSameCover(a: seq<Span>, b: seq<Span>)
    requires forall s :: s in a <==> s in b
    ensures Covered(a) == Covered(b)
  {
    forall x ensures x in Covered(a) <==> x in Covered(b) {
      CoveredExactly(a, x);
      CoveredExactly(b, x);
      if i :| 0 <= i < |a| && a[i].0 <= x < a[i].1 {
        assert a[i] in b;
      }
      if i :| 0 <= i < |b| && b[i].0 <= x < b[i].1 {
        assert b[i] in a;
      }
    }
  }

  lemma WidenedRange(last: Span, next: Span)
    requires last.0 <= next.0 <= last.1
    ensures Range(last.0, Widened(last, next).1) == Range(last.0, last.1) + Range(next.0, next.1)
  {
  }

  lemma GappedSnoc(front: seq<Span>, last: Span)
    requires Gapped(front) && forall i :: 0 <= i < |front| && front[i].0 <= front[i].1 ==> front[i].1 < last.0
    ensures Gapped(front + [last])
  {
  }

  lemma GappedLast(front: seq<Span>, last: Span)
    requires Gapped(front + [last])
    ensures Gapped(front) && forall i :: 0 <= i < |front| && front[i].0 <= front[i].1 ==> front[i].1 < last.0
  {
    var merged := front + [last];
    assert forall i :: 0 <= i < |front| ==> merged[i] == front[i];
    assert merged[|front|] == last;
  }

  lemma ProperSnoc(front: seq<Span>, last: Span)
    ensures Proper(front + [last]) <==> Proper(front) && last.0 <= last.1
  {
    var all := front + [last];
    assert forall i :: 0 <= i < |front| ==> all[i] == front[i];
    assert all[|front|] == last;
  }

  lemma MergeLast(front: seq<Span>, last: Span, next: Span)
    requires Gapped(front + [last]) && last.0 <= next.0 <= last.1
    ensures var merged := front + [Widened(last, next)];
            Gapped(merged) && Covered(merged) == Covered(front + [last]) + Range(next.0, next.1)
            && (Proper(front + [last]) ==> Proper(merged))
  {
    GappedLast(front, last);
    GappedSnoc(front, Widened(last, next));
    CoveredSnoc(front, last);
    CoveredSnoc(front, Widened(last, next));
    WidenedRange(last, next);
    ProperSnoc(front, last);
    ProperSnoc(front, Widened(last, next));
  }

  lemma MergeGap(front: seq<Span>, last: Span, next: Span)
    requires Gapped(front + [last]) && last.0 <= next.0 && last.1 < next.0
    ensures var merged := front + [last] + [next];
            Gapped(merged) && Covered(merged) == Covered(front + [last]) + Range(next.0, next.1)
            && (Proper(front + [last]) && next.0 <= next.1 ==> Proper(merged))
  {
    GappedLast(front, last);
    GappedSnoc(front + [last], next);
    CoveredSnoc(front + [last], next);
    ProperSnoc(front + [last], next);
  }

  lemma AbsorbedIs(front: seq<Span>, last: Span, next: Span)
    ensures Absorbed(front + [last], next) ==
            if next.0 <= last.1 then front + [Widened(last, next)] else front + [last] + [next]
  {
    assert (front + [last])[..|front|] == front;
  }

  lemma AbsorbedCovers(front: seq<Span>, last: Span, next: Span)
    requires Gapped(front + [last]) && last.0 <= next.0
    ensures var merged := Absorbed(front + [last], next);
            Gapped(merged) && Covered(merged) == Covered(front + [last]) + Range(next.0, next.1)
            && (Proper(front + [last]) && next.0 <= next.1 ==> Proper(merged))
  {
    AbsorbedIs(front, last, next);
    if next.0 <= last.1 {
      MergeLast(front, last, next);
    } else {
      MergeGap(front, last, next);
    }
  }

  /** What merging promises of the list it has seen. */
  predicate MergedOk(sorted: seq<Span>)
    requires sorted != []
  {
    var merged := Merged(sorted);
    Gapped(merged) && Covered(merged) == Covered(sorted) && merged[|merged| - 1].0 <= sorted[|sorted| - 1].0
    && (Proper(sorted) ==> Proper(merged))
  }

  lemma MergedSnoc(front: seq<Span>, next: Span, before: seq<Span>, last: Span)
    requires front != [] && Merged(front) == before + [last] && last.0 <= next.0
    ensures Merged(front + [next]) == Absorbed(before + [last], next)
    ensures var merged := Merged(front + [next]); merged[|merged| - 1].0 <= next.0
  {
    assert (front + [next])[..|front|] == front;
    AbsorbedIs(before, last, next);
  }

  lemma MergedStep(front: seq<Span>, next: Span)
    requires front != [] && MergedOk(front) && front[|front| - 1].0 <= next.0
    ensures MergedOk(front + [next])
  {
    var merged := Merged(front);
    var before, last := merged[..|merged| - 1], merged[|merged| - 1];
    assert merged == before + [last];
    MergedSnoc(front, next, before, last);
    AbsorbedCovers(before, last, next);
    CoveredSnoc(front, next);
    ProperSnoc(front, next);
  }

  /** Merging spans sorted by start keeps what they cover and leaves gaps; it reverses nothing. */
  lemma {:induction false} MergedCovers(sorted: seq<Span>)
    requires sorted != [] && SortedBy(sorted, StartsNotAfter)
    ensures MergedOk(sorted)
  {
    if |sorted| > 1 {
      var front, next := sorted[..|sorted| - 1], sorted[|sorted| - 1];
      MergedCovers(front);
      assert StartsNotAfter(sorted[|sorted| - 2], next);
      MergedStep(front, next);
      assert sorted == front + [next];
    }
  }

  /** The merge loop over the spans sorted by start. */
  method MergeSorted(sorted: seq<Span>) returns (merged: seq<Span>)
    requires sorted != []
    ensures merged == Merged(sorted)
    ensures SortedBy(sorted, StartsNotAfter) ==> Gapped(merged) && Covered(merged) == Covered(sorted)
  {
    merged := [sorted[0]];
    assert sorted[..1] == [sorted[0]];
    for i := 1 to |sorted|
      invariant merged == Merged(sorted[..i])
    {
      assert sorted[..i + 1][..i] == sorted[..i];
      var next, last := sorted[i], merged[|merged| - 1];
      if next.0 <= last.1 {
        merged := merged[..|merged| - 1] + [(last.0, if last.1 >= next.1 then last.1 else next.1)];
      } else {
        merged := merged + [next];
      }
    }
    assert sorted[..|sorted|] == sorted;
    if SortedBy(sorted, StartsNotAfter) {
      MergedCovers(sorted);
    }
  }

  function UnionLength(spans: seq<Span>): int {
    if spans == [] then 0 else TotalLength(Merged(SortBy(spans, StartsNotAfter)))
  }

  /** The merged spans are all start <= end. */
  predicate MergesProperly(spans: seq<Span>) {
    spans != [] ==> Proper(Merged(SortBy(spans, StartsNotAfter)))
  }

  /** The computed length never exceeds the number of covered positions, and is that number exactly when no reversed
      span survives the merging; spans with start <= end never leave one. */
  lemma UnionLengthExactly(spans: seq<Span>)
    ensures UnionLength(spans) <= |Covered(spans)|
    ensures UnionLength(spans) == |Covered(spans)| <==> MergesProperly(spans)
    ensures Proper(spans) ==> MergesProperly(spans)
  {
    if spans != [] {
      var sorted := SortBy(spans, StartsNotAfter);
      SortBySorts(spans, StartsNotAfter);
      SameElements(spans, sorted);
      SameSpansSameCover(spans, sorted);
      MergedCovers(sorted);
      GappedLength(Merged(sorted));
      if Proper(spans) {
        forall i | 0 <= i < |sorted| ensures sorted[i].0 <= sorted[i].1 {
          assert sorted[i] in spans;
        }
      }
    }
  }

  /** `compute_span_union_length`: for spans with start <= end, exactly the number of positions covered by at least one
      of them. */
  method ComputeSpanUnionLength(spans: seq<Span>) returns (length: int)
    ensures length == UnionLength(spans)
    ensures Proper(spans) ==> length == |Covered(spans)|
  {
    UnionLengthExactly(spans);
    if spans == [] {
      return 0;
    }
    var sorted := SortBy(spans, StartsNotAfter);
    assert sorted != [];
    var merged := MergeSorted(sorted);
    length := 0;
    for i := 0 to |merged|
      invariant length == TotalLength(merged[..i])
    {
      assert merged[..i + 1][..i] == merged[..i];
      length := length + (merged[i].1 - merged[i].0);
    }
    assert merged[..|merged|] == merged;
  }

  lemma SameElements(a: seq<Span>, b: seq<Span>)
    requires multiset(a) == multiset(b)
    ensures |a| == |b| && forall s :: s in a <==> s in b
    ensures Proper(a) ==> Proper(b)
  {
    forall i | 0 <= i < |b| && Proper(a) ensures b[i].0 <= b[i].1 {
      assert b[i] in multiset(a);
    }
    assert |a| == |multiset(a)| && |b| == |multiset(b)|;
    assert forall s :: s in a <==> s in multiset(a);
    assert forall s :: s in b <==> s in multiset(b);
  }

  /** A single span is counted right exactly when it is not reversed; a reversed one subtracts. */
  lemma ReversedSpanSubtracts(span: Span)
    ensures UnionLength([span]) == span.1 - span.0
    ensures UnionLength([span]) == |Covered([span])| <==> span.0 <= span.1
  {
    SortOne(span);
    assert Merged([span]) == [span] && TotalLength([]) == 0;
    assert [span][..|[span]| - 1] == [];
    CoveredSnoc([], span);
    assert [] + [span] == [span];
    RangeLength(span.0, span.1);
  }

  lemma SortOne(span: Span)
    ensures SortBy([span], StartsNotAfter) == [span]
  {
    assert [span][..0] == [];
  }

  /** Adding spans never shrinks the cover, and repeating or reordering spans never changes it. */
  lemma UnionLaws(spans: seq<Span>, more: seq<Span>)
    ensures Covered(spans + more) == Covered(spans) + Covered(more) == Covered(more + spans)
    ensures |Covered(spans)| <= |Covered(spans + more)|
    ensures Covered(spans + spans) == Covered(spans)
  {
    forall x
      ensures x in Covered(spans + more) <==> x in Covered(spans) || x in Covered(more)
    {
      CoveredExactly(spans + more, x);
      CoveredExactly(spans, x);
      CoveredExactly(more, x);
      if i :| 0 <= i < |spans| && spans[i].0 <= x < spans[i].1 {
        assert (spans + more)[i] == spans[i];
      }
      if i :| 0 <= i < |more| && more[i].0 <= x < more[i].1 {
        assert (spans + more)[|spans| + i] == more[i];
      }
    }
    SameSpansSameCover(spans + more, more + spans);
    SameSpansSameCover(spans + spans, spans);
    Subset(Covered(spans), Covered(spans + more));
  }

  lemma {:induction false} Subset(a: set<int>, b: set<int>)
    requires a <= b
    ensures |a| <= |b|
  {
    assert b == a + (b - a);
  }

  lemma CoveredInside(spans: seq<Span>, length: nat)
    requires forall i :: 0 <= i < |spans| ==> 0 <= spans[i].0 && spans[i].1 <= length
    ensures 0 <= |Covered(spans)| <= length
  {
    forall x | x in Covered(spans) ensures x in Range(0, length) {
      CoveredExactly(spans, x);
    }
    RangeSize(0, length);
    Subset(Covered(spans), Range(0, length));
  }

  /** Citation resolution before rounding: the covered fraction of the answer. It lies in [0, 1] when all spans lie
      inside the answer, and reaches 1 exactly when every position is covered. */
  method CitationResolution(spans: seq<Span>, answerLength: nat) returns (resolution: real)
    ensures answerLength > 0 ==> resolution == UnionLength(spans) as real / answerLength as real
    ensures answerLength > 0 && Proper(spans) ==> resolution == |Covered(spans)| as real / answerLength as real
    ensures answerLength == 0 ==> resolution == 0.0
    ensures Proper(spans) && (forall i :: 0 <= i < |spans| ==> 0 <= spans[i].0 && spans[i].1 <= answerLength) ==>
              && 0.0 <= resolution <= 1.0
              && (answerLength > 0 ==> (resolution == 1.0 <==> Covered(spans) == Range(0, answerLength)))
  {
    if answerLength == 0 {
      return 0.0;
    }
    var covered := ComputeSpanUnionLength(spans);
    resolution := covered as real / answerLength as real;
    if Proper(spans) && forall i :: 0 <= i < |spans| ==> 0 <= spans[i].0 && spans[i].1 <= answerLength {
      CoveredInside(spans, answerLength);
      FullCover(spans, answerLength);
      FractionBounds(covered, answerLength);
    }
  }

  lemma FractionBounds(covered: int, length: int)
    requires 0 <= covered <= length && length > 0
    ensures 0.0 <= covered as real / length as real <= 1.0
    ensures covered as real / length as real == 1.0 <==> covered == length
  {
  }

  lemma FullCover(spans: seq<Span>, length: nat)
    requires forall i :: 0 <= i < |spans| ==> 0 <= spans[i].0 && spans[i].1 <= length
    ensures |Covered(spans)| == length <==> Covered(spans) == Range(0, length)
  {
    RangeSize(0, length);
    forall x | x in Covered(spans) ensures x in Range(0, length) {
      CoveredExactly(spans, x);
    }
    var a, b := Covered(spans), Range(0, length);
    assert a <= b && b == a + (b - a) && |b| == |a| + |b - a|;
  }
}
