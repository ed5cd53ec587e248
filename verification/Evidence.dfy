/** Hierarchical matching of gold evidence against retrieved items. */
module Evidence {
  import opened Wrappers

  datatype Gold = Gold(documentId: Option<string>, page: Option<int>, startChar: Option<int>, endChar: Option<int>)

  datatype Item = Item(documentId: Option<string>, page: Option<int>, startChar: Option<int>, endChar: Option<int>)

  datatype Level = SPAN | PAGE | DOCUMENT

  datatype Match = Matched(index: nat, level: Level) | Unmatched

  function Max(a: int, b: int): int { if a >= b then a else b }
  function Min(a: int, b: int): int { if a <= b then a else b }

  predicate SpansOverlap(startA: int, endA: int, startB: int, endB: int) {
    Max(startA, startB) < Min(endA, endB)
  }

  predicate InSpan(x: int, start: int, end: int) {
    start <= x < end
  }

  /** Two half-open spans overlap exactly when they share a position. */
  lemma OverlapSharesPosition(startA: int, endA: int, startB: int, endB: int)
    ensures SpansOverlap(startA, endA, startB, endB) <==>
            exists x :: InSpan(x, startA, endA) && InSpan(x, startB, endB)
  {
    if SpansOverlap(startA, endA, startB, endB) {
      var x := Max(startA, startB);
      assert InSpan(x, startA, endA) && InSpan(x, startB, endB);
    }
  }

  predicate Identified(gold: Gold) {
    gold.documentId.Some? && gold.documentId.value != ""
  }

  predicate SameDocument(gold: Gold, item: Item) {
    Identified(gold) && item.documentId == gold.documentId
  }

  predicate SameSpan(gold: Gold, item: Item) {
    && SameDocument(gold, item)
    && gold.startChar.Some? && gold.endChar.Some? && item.startChar.Some? && item.endChar.Some?
    && SpansOverlap(gold.startChar.value, gold.endChar.value, item.startChar.value, item.endChar.value)
  }

  predicate SamePage(gold: Gold, item: Item) {
    SameDocument(gold, item) && gold.page.Some? && item.page == gold.page
  }

  /** The most specific level any retrieved item offers: the first overlapping span, else the last item on the page,
      else the first item of the document. */
  predicate BestMatch(gold: Gold, items: seq<Item>, m: Match) {
    match m
    case Matched(k, SPAN) =>
      k < |items| && SameSpan(gold, items[k]) && forall i :: 0 <= i < k ==> !SameSpan(gold, items[i])
    case Matched(k, PAGE) =>
      && k < |items| && SamePage(gold, items[k])
      && (forall i :: 0 <= i < |items| ==> !SameSpan(gold, items[i]))
      && (forall i :: k < i < |items| ==> !SamePage(gold, items[i]))
    case Matched(k, DOCUMENT) =>
      && k < |items| && SameDocument(gold, items[k])
      && (forall i :: 0 <= i < |items| ==> !SameSpan(gold, items[i]) && !SamePage(gold, items[i]))
      && (forall i :: 0 <= i < k ==> !SameDocument(gold, items[i]))
    case Unmatched => forall i :: 0 <= i < |items| ==> !SameDocument(gold, items[i])
  }

  /** The specification leaves no choice. */
  lemma BestMatchIsUnique(gold: Gold, items: seq<Item>, m: Match, n: Match)
    requires BestMatch(gold, items, m) && BestMatch(gold, items, n)
    ensures m == n
  {
    if m.Matched? && n.Matched? {
      assert SameDocument(gold, items[m.index]) && SameDocument(gold, items[n.index]);
    }
  }

  /** Adding retrieved items never makes a match less specific. */
  lemma MoreItemsNeverLessSpecific(gold: Gold, items: seq<Item>, more: seq<Item>, m: Match, n: Match)
    requires BestMatch(gold, items, m) && BestMatch(gold, items + more, n) && m.Matched?
    ensures n.Matched?
    ensures m.level == SPAN ==> n == m
    ensures m.level == PAGE ==> n.level in {SPAN, PAGE}
  {
    assert (items + more)[m.index] == items[m.index];
    assert forall i :: 0 <= i < |items| ==> (items + more)[i] == items[i];
  }

  /** The search for one gold item, with the two fallbacks the source keeps between the main loop and the last one;
      neither of them can find anything. */
  method MatchOne(gold: Gold, items: seq<Item>) returns (m: Match)
    ensures BestMatch(gold, items, m)
  {
    if !Identified(gold) {
      return Unmatched;
    }
    var found, index: Option<nat>, level := false, None, DOCUMENT;
    for i := 0 to |items|
      invariant forall j :: 0 <= j < i ==> !SameSpan(gold, items[j])
      invariant found == index.Some?
      invariant !found ==> forall j :: 0 <= j < i ==> !SamePage(gold, items[j])
      invariant found ==>
                  && level == PAGE && index.value < i && SamePage(gold, items[index.value])
                  && forall j :: index.value < j < i ==> !SamePage(gold, items[j])
    {
      var item := items[i];
      if item.documentId == gold.documentId {
        if gold.startChar.Some? && gold.endChar.Some? && item.startChar.Some? && item.endChar.Some? {
          if SpansOverlap(gold.startChar.value, gold.endChar.value, item.startChar.value, item.endChar.value) {
            return Matched(i, SPAN);
          }
        }
        if gold.page.Some? && item.page == gold.page {
          found, index, level := true, Some(i), PAGE;
        }
      }
    }
    if !found && index.Some? {
      assert false;
    }
    if !found {
      for i := 0 to |items| {
        if items[i].documentId == gold.documentId && gold.page.Some? && items[i].page == gold.page {
          assert SamePage(gold, items[i]);
          assert false;
        }
      }
    }
    if !found {
      for i := 0 to |items|
        invariant forall j :: 0 <= j < i ==> !SameDocument(gold, items[j])
      {
        if items[i].documentId == gold.documentId {
          return Matched(i, DOCUMENT);
        }
      }
    }
    m := if found then Matched(index.value, level) else Unmatched;
  }

  /** `match_gold_evidence`: one best match per gold item, in gold order. */
  method MatchGoldEvidence(golds: seq<Gold>, items: seq<Item>) returns (matches: seq<Match>)
    ensures |matches| == |golds|
    ensures forall i :: 0 <= i < |golds| ==> BestMatch(golds[i], items, matches[i])
  {
    matches := [];
    for g := 0 to |golds|
      invariant |matches| == g
      invariant forall i :: 0 <= i < g ==> BestMatch(golds[i], items, matches[i])
    {
      var m := MatchOne(golds[g], items);
      matches := matches + [m];
    }
  }
}
