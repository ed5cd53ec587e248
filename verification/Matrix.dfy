/** Cartesian expansion of an experiment matrix over dotted configuration paths. */
module Matrix {
  import opened Wrappers
  import opened Sorting
  import opened DeepMerge

  datatype MatrixError = InvalidPath | NotAMapping | InvalidConfiguration

  // ----- one assignment -----

  /** New leaves may appear only in the two flexible parameter mappings. */
  predicate AllowsNewKey(prefix: Path) {
    prefix == ["target", "parameters"] || prefix == ["target", "corpus", "parameters"]
  }

  /** `_set_matrix_path` from the component after `prefix` on. */
  function SetPath(fields: Fields, prefix: Path, parts: Path, value: Json): Result<Fields, MatrixError>
    requires parts != []
    decreases |parts|
  {
    var part := parts[0];
    if |parts| == 1 then
      if part !in fields && !AllowsNewKey(prefix) then Err(InvalidPath)
      else Ok(fields[part := value])
    else if part !in fields then Err(InvalidPath)
    else if !fields[part].Mapping? then Err(NotAMapping)
    else
      match SetPath(fields[part].fields, prefix + [part], parts[1..], value)
      case Err(error) => Err(error)
      case Ok(inner) => Ok(fields[part := Mapping(inner)])
  }

  /** Every component before the last leads into a mapping, and the last exists or may be created. */
  predicate Settable(fields: Fields, prefix: Path, parts: Path)
    requires parts != []
    decreases |parts|
  {
    if |parts| == 1 then parts[0] in fields || AllowsNewKey(prefix)
    else parts[0] in fields && fields[parts[0]].Mapping?
         && Settable(fields[parts[0]].fields, prefix + [parts[0]], parts[1..])
  }

  /** Neither path leads to or through the other. */
  predicate Apart(p: Path, q: Path) {
    !(p <= q) && !(q <= p)
  }

  lemma ApartSymmetric(p: Path, q: Path)
    requires Apart(p, q)
    ensures Apart(q, p)
  {
  }

  lemma ApartTails(p: Path, q: Path)
    requires Apart(p, q)
    ensures p != [] && q != []
    ensures p[0] == q[0] ==> |p| > 1 && |q| > 1 && Apart(p[1..], q[1..])
  {
    if p[0] == q[0] {
      assert p == [p[0]] + p[1..] && q == [q[0]] + q[1..];
    }
  }

  lemma {:induction false} SetExactly(fields: Fields, prefix: Path, parts: Path, value: Json)
    requires parts != []
    ensures SetPath(fields, prefix, parts, value).Ok? <==> Settable(fields, prefix, parts)
    decreases |parts|
  {
    if |parts| > 1 && parts[0] in fields && fields[parts[0]].Mapping? {
      SetExactly(fields[parts[0]].fields, prefix + [parts[0]], parts[1..], value);
    }
  }

  /** The two mappings that take new leaves. */
  predicate Flexible(path: Path) {
    || (|path| == 2 && path[0] == "target" && path[1] == "parameters")
    || (|path| == 3 && path[0] == "target" && path[1] == "corpus" && path[2] == "parameters")
  }

  lemma {:induction false} VerdictBelow(fields: Fields, prefix: Path, parts: Path, value: Json)
    requires parts != []
    ensures var r, front := SetPath(fields, prefix, parts, value), parts[..|parts| - 1];
            && (r.Ok? <==>
                  || Lookup(fields, parts).Some?
                  || (Flexible(prefix + front) && Lookup(fields, front).Some? && Lookup(fields, front).value.Mapping?))
            && (r == Err(NotAMapping) <==> Cut(fields, parts))
            && (r.Err? ==> r.error in {InvalidPath, NotAMapping})
    decreases |parts|
  {
    var front := parts[..|parts| - 1];
    if |parts| == 1 {
      assert prefix + front == prefix;
    } else {
      assert prefix + front == (prefix + [parts[0]]) + parts[1..][..|parts| - 2];
      assert front[1..] == parts[1..][..|parts| - 2];
      if parts[0] in fields && fields[parts[0]].Mapping? {
        VerdictBelow(fields[parts[0]].fields, prefix + [parts[0]], parts[1..], value);
      }
    }
  }

  /** A path can be set exactly when something stands there, or it names a new key of one of the two mappings that take
      them; it is refused as leading through a value that is no mapping exactly when it does. */
  lemma VerdictExactly(fields: Fields, parts: Path, value: Json)
    requires parts != []
    ensures var r, front := SetPath(fields, [], parts, value), parts[..|parts| - 1];
            && (r.Ok? <==>
                  || Lookup(fields, parts).Some?
                  || (Flexible(front) && Lookup(fields, front).Some? && Lookup(fields, front).value.Mapping?))
            && (r == Err(NotAMapping) <==> Cut(fields, parts))
            && (r == Err(InvalidPath) <==> !r.Ok? && !Cut(fields, parts))
  {
    VerdictBelow(fields, [], parts, value);
    assert [] + parts[..|parts| - 1] == parts[..|parts| - 1];
  }

  lemma {:induction false} SetReadsBack(fields: Fields, prefix: Path, parts: Path, value: Json)
    requires parts != [] && SetPath(fields, prefix, parts, value).Ok?
    ensures Lookup(SetPath(fields, prefix, parts, value).value, parts) == Some(value)
    decreases |parts|
  {
    if |parts| > 1 {
      SetReadsBack(fields[parts[0]].fields, prefix + [parts[0]], parts[1..], value);
    }
  }

  lemma {:induction false} SetElsewhere(fields: Fields, prefix: Path, parts: Path, value: Json, other: Path)
    requires parts != [] && SetPath(fields, prefix, parts, value).Ok? && Apart(parts, other)
    ensures Lookup(SetPath(fields, prefix, parts, value).value, other) == Lookup(fields, other)
    decreases |parts|
  {
    ApartTails(parts, other);
    if parts[0] == other[0] {
      SetElsewhere(fields[parts[0]].fields, prefix + [parts[0]], parts[1..], value, other[1..]);
    }
  }

  lemma {:induction false} SettableElsewhere(
    fields: Fields, prefix: Path, parts: Path, value: Json, other: Path)
    requires parts != [] && other != [] && SetPath(fields, prefix, parts, value).Ok? && Apart(parts, other)
    ensures Settable(SetPath(fields, prefix, parts, value).value, prefix, other) <==> Settable(fields, prefix, other)
    decreases |parts|
  {
    ApartTails(parts, other);
    if parts[0] == other[0] {
      SettableElsewhere(fields[parts[0]].fields, prefix + [parts[0]], parts[1..], value, other[1..]);
    }
  }

  /** Assignments to paths that are apart commute. */
  lemma {:induction false} SetCommutes(fields: Fields, prefix: Path, p: Path, v: Json, q: Path, w: Json)
    requires p != [] && q != [] && Apart(p, q)
    requires Settable(fields, prefix, p) && Settable(fields, prefix, q)
    ensures SetPath(fields, prefix, p, v).Ok? && SetPath(fields, prefix, q, w).Ok?
    ensures SetPath(SetPath(fields, prefix, p, v).value, prefix, q, w)
            == SetPath(SetPath(fields, prefix, q, w).value, prefix, p, v)
    decreases |p|
  {
    ApartTails(p, q);
    SetExactly(fields, prefix, p, v);
    SetExactly(fields, prefix, q, w);
    if p[0] == q[0] {
      var inner, deeper := fields[p[0]].fields, prefix + [p[0]];
      SetCommutes(inner, deeper, p[1..], v, q[1..], w);
      SetExactly(inner, deeper, p[1..], v);
      SetExactly(inner, deeper, q[1..], w);
      var ix, iy := SetPath(inner, deeper, p[1..], v).value, SetPath(inner, deeper, q[1..], w).value;
      SettableElsewhere(inner, deeper, p[1..], v, q[1..]);
      SetExactly(ix, deeper, q[1..], w);
      var both := SetPath(ix, deeper, q[1..], w).value;
      SetBothBelow(fields, prefix, p, v, q, w, ix, both);
      SetBothBelow(fields, prefix, q, w, p, v, iy, both);
    } else {
      CommuteAtDifferentKeys(fields, prefix, p, v, q, w);
    }
  }

  lemma SetBelow(fields: Fields, prefix: Path, p: Path, v: Json, inner: Fields)
    requires |p| > 1 && p[0] in fields && fields[p[0]].Mapping?
    requires SetPath(fields[p[0]].fields, prefix + [p[0]], p[1..], v) == Ok(inner)
    ensures SetPath(fields, prefix, p, v) == Ok(fields[p[0] := Mapping(inner)])
  {
  }

  lemma SetBothBelow(fields: Fields, prefix: Path, p: Path, v: Json, q: Path, w: Json, once: Fields, both: Fields)
    requires |p| > 1 && |q| > 1 && p[0] == q[0] && p[0] in fields && fields[p[0]].Mapping?
    requires SetPath(fields[p[0]].fields, prefix + [p[0]], p[1..], v) == Ok(once)
    requires SetPath(once, prefix + [p[0]], q[1..], w) == Ok(both)
    ensures SetPath(fields, prefix, p, v) == Ok(fields[p[0] := Mapping(once)])
    ensures SetPath(fields[p[0] := Mapping(once)], prefix, q, w) == Ok(fields[p[0] := Mapping(both)])
  {
    SetBelow(fields, prefix, p, v, once);
    var changed := fields[p[0] := Mapping(once)];
    assert changed[q[0]] == Mapping(once);
    SetBelow(changed, prefix, q, w, both);
    assert changed[q[0] := Mapping(both)] == fields[p[0] := Mapping(both)];
  }

  lemma CommuteAtDifferentKeys(fields: Fields, prefix: Path, p: Path, v: Json, q: Path, w: Json)
    requires p != [] && q != [] && p[0] != q[0]
    requires SetPath(fields, prefix, p, v).Ok? && SetPath(fields, prefix, q, w).Ok?
    ensures SetPath(SetPath(fields, prefix, p, v).value, prefix, q, w)
            == SetPath(SetPath(fields, prefix, q, w).value, prefix, p, v)
  {
    var x, y := SetPath(fields, prefix, p, v).value, SetPath(fields, prefix, q, w).value;
    assert x == fields[p[0] := x[p[0]]] && y == fields[q[0] := y[q[0]]];
    assert SetPath(x, prefix, q, w) == Ok(x[q[0] := y[q[0]]]);
    assert SetPath(y, prefix, p, v) == Ok(y[p[0] := x[p[0]]]);
    assert x[q[0] := y[q[0]]] == y[p[0] := x[p[0]]];
  }

  // ----- one combination -----

  /** A path is what splitting a string returns, so it has at least one component. */
  type Assignment = a: (Path, Json) | a.0 != [] witness ([""], Null)

  function SetAll(fields: Fields, todo: seq<Assignment>): Result<Fields, MatrixError>
  {
    if todo == [] then Ok(fields)
    else
      match SetAll(fields, todo[..|todo| - 1])
      case Err(error) => Err(error)
      case Ok(partial) => SetPath(partial, [], todo[|todo| - 1].0, todo[|todo| - 1].1)
  }

  predicate PrefixFree(todo: seq<Assignment>) {
    forall i, j :: 0 <= i < j < |todo| ==> Apart(todo[i].0, todo[j].0)
  }

  lemma {:induction false} SettableAfterAll(fields: Fields, todo: seq<Assignment>, path: Path)
    requires PrefixFree(todo) && path != [] && SetAll(fields, todo).Ok?
    requires forall i :: 0 <= i < |todo| ==> Apart(todo[i].0, path)
    ensures Settable(SetAll(fields, todo).value, [], path) <==> Settable(fields, [], path)
  {
    if todo != [] {
      var front, last := todo[..|todo| - 1], todo[|todo| - 1];
      SettableAfterAll(fields, front, path);
      SettableElsewhere(SetAll(fields, front).value, [], last.0, last.1, path);
    }
  }

  /** A combination over prefix-free paths is rejected exactly when some single path could not be set in the base. */
  lemma {:induction false} SetAllExactly(fields: Fields, todo: seq<Assignment>)
    requires PrefixFree(todo)
    ensures SetAll(fields, todo).Ok? <==> forall i :: 0 <= i < |todo| ==> Settable(fields, [], todo[i].0)
  {
    if todo != [] {
      var front, last := todo[..|todo| - 1], todo[|todo| - 1];
      SetAllExactly(fields, front);
      if SetAll(fields, front).Ok? {
        SettableAfterAll(fields, front, last.0);
        SetExactly(SetAll(fields, front).value, [], last.0, last.1);
      }
    }
  }

  /** The payload of a combination reads back every chosen value and equals the base elsewhere. */
  lemma {:induction false} PayloadReadsBack(fields: Fields, todo: seq<Assignment>)
    requires PrefixFree(todo) && SetAll(fields, todo).Ok?
    ensures forall i :: 0 <= i < |todo| ==> Lookup(SetAll(fields, todo).value, todo[i].0) == Some(todo[i].1)
    ensures forall q :: (forall i :: 0 <= i < |todo| ==> Apart(todo[i].0, q)) ==>
              Lookup(SetAll(fields, todo).value, q) == Lookup(fields, q)
  {
    if todo != [] {
      var front, last := todo[..|todo| - 1], todo[|todo| - 1];
      PayloadReadsBack(fields, front);
      var partial := SetAll(fields, front).value;
      SetReadsBack(partial, [], last.0, last.1);
      forall i | 0 <= i < |todo| ensures Lookup(SetAll(fields, todo).value, todo[i].0) == Some(todo[i].1) {
        if i < |front| {
          ApartSymmetric(todo[i].0, last.0);
          SetElsewhere(partial, [], last.0, last.1, todo[i].0);
          assert front[i] == todo[i];
        }
      }
      forall q | forall i :: 0 <= i < |todo| ==> Apart(todo[i].0, q)
        ensures Lookup(SetAll(fields, todo).value, q) == Lookup(fields, q)
      {
        assert forall i :: 0 <= i < |front| ==> front[i] == todo[i];
        SetElsewhere(partial, [], last.0, last.1, q);
      }
    }
  }

  lemma LastApplied(fields: Fields, front: seq<Assignment>, x: Assignment)
    requires SetAll(fields, front).Ok?
    ensures SetAll(fields, front + [x]) == SetPath(SetAll(fields, front).value, [], x.0, x.1)
  {
    assert (front + [x])[..|front|] == front;
  }

  lemma PrefixFreeLastTwo(base: seq<Assignment>, y: Assignment, x: Assignment)
    requires PrefixFree(base + [y] + [x])
    ensures PrefixFree(base) && PrefixFree(base + [x]) && Apart(y.0, x.0)
    ensures forall i :: 0 <= i < |base| ==> Apart(base[i].0, x.0) && Apart(base[i].0, y.0)
  {
    var all := base + [y] + [x];
    assert forall i :: 0 <= i < |base| ==> all[i] == base[i];
    assert all[|base|] == y && all[|base| + 1] == x;
  }

  lemma SwapLastTwo(fields: Fields, base: seq<Assignment>, y: Assignment, x: Assignment)
    requires PrefixFree(base + [y] + [x]) && SetAll(fields, base + [y] + [x]).Ok?
    ensures PrefixFree(base + [x]) && SetAll(fields, base + [x]).Ok?
    ensures SetAll(fields, base + [x] + [y]) == SetAll(fields, base + [y] + [x])
  {
    PrefixFreeLastTwo(base, y, x);
    assert (base + [y] + [x])[..|base| + 1] == base + [y] && (base + [y])[..|base|] == base;
    var partial := SetAll(fields, base).value;
    LastApplied(fields, base, y);
    LastApplied(fields, base + [y], x);
    SetExactly(partial, [], y.0, y.1);
    SetExactly(SetAll(fields, base + [y]).value, [], x.0, x.1);
    SettableElsewhere(partial, [], y.0, y.1, x.0);
    SetCommutes(partial, [], y.0, y.1, x.0, x.1);
    LastApplied(fields, base, x);
    LastApplied(fields, base + [x], y);
  }

  lemma Regroup<T>(before: seq<T>, front: seq<T>, y: T, x: T)
    ensures before + (front + [y]) + [x] == before + front + [y] + [x]
    ensures before + [x] + (front + [y]) == before + [x] + front + [y]
  {
  }

  lemma SameThenSame(fields: Fields, one: seq<Assignment>, other: seq<Assignment>, y: Assignment)
    requires SetAll(fields, one).Ok? && SetAll(fields, other) == SetAll(fields, one)
    ensures SetAll(fields, other + [y]) == SetAll(fields, one + [y])
  {
    LastApplied(fields, one, y);
    LastApplied(fields, other, y);
  }

  /** The last assignment may as well be made before any number of those in front of it. */
  lemma {:induction false} MoveForward(fields: Fields, before: seq<Assignment>, after: seq<Assignment>, x: Assignment)
    requires PrefixFree(before + after + [x])
    requires SetAll(fields, before + after + [x]).Ok?
    ensures SetAll(fields, before + [x] + after) == SetAll(fields, before + after + [x])
    decreases |after|
  {
    if after == [] {
      assert before + [x] + after == before + after + [x];
    } else {
      var front, y := after[..|after| - 1], after[|after| - 1];
      assert after == front + [y];
      Regroup(before, front, y, x);
      SwapLastTwo(fields, before + front, y, x);
      MoveForward(fields, before, front, x);
      SameThenSame(fields, before + front + [x], before + [x] + front, y);
    }
  }

  lemma PrefixFreeMoved(before: seq<Assignment>, after: seq<Assignment>, x: Assignment)
    requires PrefixFree(before + after + [x])
    ensures PrefixFree(before + [x] + after)
  {
    var all, moved := before + after + [x], before + [x] + after;
    var b := |before|;
    forall i, j | 0 <= i < j < |moved| ensures Apart(moved[i].0, moved[j].0) {
      var i' := if i < b then i else if i == b then |all| - 1 else i - 1;
      var j' := if j < b then j else if j == b then |all| - 1 else j - 1;
      assert moved[i] == all[i'] && moved[j] == all[j'];
      assert Apart(all[if i' < j' then i' else j'].0, all[if i' < j' then j' else i'].0);
    }
  }

  lemma TakenOut<T>(before: seq<T>, x: T, after: seq<T>)
    ensures multiset(before + [x] + after) - multiset{x} == multiset(before + after)
  {
    assert multiset(before + [x] + after) == multiset(before) + multiset{x} + multiset(after);
  }

  /** Where a rearrangement has the last element, and what is around it. */
  lemma FindLast<T>(todo: seq<T>, other: seq<T>) returns (before: seq<T>, after: seq<T>)
    requires todo != [] && multiset(other) == multiset(todo)
    ensures other == before + [todo[|todo| - 1]] + after
    ensures multiset(before + after) == multiset(todo[..|todo| - 1])
  {
    var x := todo[|todo| - 1];
    assert x in multiset(todo);
    var k :| 0 <= k < |other| && other[k] == x;
    before, after := other[..k], other[k + 1..];
    assert other == before + [x] + after;
    TakenOut(before, x, after);
    DropLast(todo);
  }

  lemma PrefixFreeInsert(before: seq<Assignment>, after: seq<Assignment>, x: Assignment)
    requires PrefixFree(before + after)
    requires forall e :: e in before + after ==> Apart(e.0, x.0)
    ensures PrefixFree(before + after + [x]) && PrefixFree(before + [x] + after)
  {
    var all, rest := before + after + [x], before + after;
    forall i, j | 0 <= i < j < |all| ensures Apart(all[i].0, all[j].0) {
      assert rest[i] in rest;
    }
    PrefixFreeMoved(before, after, x);
  }

  lemma PrefixFreeLast(todo: seq<Assignment>)
    requires PrefixFree(todo) && todo != []
    ensures PrefixFree(todo[..|todo| - 1])
    ensures forall e :: e in todo[..|todo| - 1] ==> Apart(e.0, todo[|todo| - 1].0)
  {
  }

  lemma {:induction false} PermutedPrefixFree(todo: seq<Assignment>, other: seq<Assignment>)
    requires PrefixFree(todo) && multiset(other) == multiset(todo)
    ensures PrefixFree(other)
  {
    if todo == [] {
      assert |other| == |multiset(other)|;
    } else {
      var before, after := FindLast(todo, other);
      var front, x := todo[..|todo| - 1], todo[|todo| - 1];
      PrefixFreeLast(todo);
      PermutedPrefixFree(front, before + after);
      forall e: Assignment | e in before + after ensures Apart(e.0, x.0) {
        assert e in multiset(before + after);
      }
      PrefixFreeInsert(before, after, x);
    }
  }

  /** Rearranging the assignments of a combination neither changes its payload nor whether it is rejected. */
  lemma {:induction false} OrderDoesNotMatter(fields: Fields, todo: seq<Assignment>, other: seq<Assignment>)
    requires PrefixFree(todo) && multiset(other) == multiset(todo)
    ensures PrefixFree(other)
    ensures SetAll(fields, other).Ok? <==> SetAll(fields, todo).Ok?
    ensures SetAll(fields, todo).Ok? ==> SetAll(fields, other) == SetAll(fields, todo)
  {
    PermutedPrefixFree(todo, other);
    SameVerdict(fields, todo, other);
    if todo == [] {
      assert |other| == |multiset(other)|;
    } else if SetAll(fields, todo).Ok? {
      SamePayload(fields, todo, other);
    }
  }

  lemma {:induction false} SamePayload(fields: Fields, todo: seq<Assignment>, other: seq<Assignment>)
    requires PrefixFree(todo) && multiset(other) == multiset(todo)
    requires todo != [] && SetAll(fields, todo).Ok?
    ensures SetAll(fields, other) == SetAll(fields, todo)
    decreases |todo|, 1
  {
    var before, after := FindLast(todo, other);
    var front, x := todo[..|todo| - 1], todo[|todo| - 1];
    WithoutLast(fields, todo, before, after);
    assert front + [x] == todo;
    MovedToTheEnd(fields, front, before, after, x);
  }

  lemma MovedToTheEnd(
    fields: Fields, front: seq<Assignment>, before: seq<Assignment>, after: seq<Assignment>, x: Assignment)
    requires PrefixFree(before + after + [x]) && SetAll(fields, front).Ok? && SetAll(fields, front + [x]).Ok?
    requires SetAll(fields, before + after) == SetAll(fields, front)
    ensures SetAll(fields, before + [x] + after) == SetAll(fields, front + [x])
  {
    LastApplied(fields, front, x);
    LastApplied(fields, before + after, x);
    MoveForward(fields, before, after, x);
  }

  lemma {:induction false} WithoutLast(
    fields: Fields, todo: seq<Assignment>, before: seq<Assignment>, after: seq<Assignment>)
    requires PrefixFree(todo) && todo != [] && SetAll(fields, todo).Ok?
    requires multiset(before + after) == multiset(todo[..|todo| - 1])
    ensures PrefixFree(before + after + [todo[|todo| - 1]])
    ensures SetAll(fields, todo[..|todo| - 1]).Ok?
    ensures SetAll(fields, before + after) == SetAll(fields, todo[..|todo| - 1])
    decreases |todo|, 0
  {
    var front, x := todo[..|todo| - 1], todo[|todo| - 1];
    PrefixFreeLast(todo);
    PermutedPrefixFree(front, before + after);
    forall e: Assignment | e in before + after ensures Apart(e.0, x.0) {
      assert e in multiset(before + after);
    }
    PrefixFreeInsert(before, after, x);
    if front != [] {
      SamePayload(fields, front, before + after);
    } else {
      assert |before + after| == |multiset(before + after)|;
    }
  }

  lemma SameVerdict(fields: Fields, todo: seq<Assignment>, other: seq<Assignment>)
    requires PrefixFree(todo) && PrefixFree(other) && multiset(other) == multiset(todo)
    ensures SetAll(fields, other).Ok? <==> SetAll(fields, todo).Ok?
  {
    SetAllExactly(fields, todo);
    SetAllExactly(fields, other);
    forall i | 0 <= i < |todo| ensures todo[i] in other {
      assert todo[i] in multiset(other);
    }
    forall i | 0 <= i < |other| ensures other[i] in todo {
      assert other[i] in multiset(todo);
    }
  }
}
