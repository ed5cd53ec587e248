/** A combination applied in place, with values that other combinations share. */
module MatrixSharing {
  import opened Wrappers
  import opened Strings
  import opened DeepMerge
  import opened Matrix
  import opened MatrixPayload
  import opened MatrixExpansion

  /** A chosen value, the dictionaries it is made of, and what it means. */
  datatype Choice = Choice(value: Value, dicts: set<Dict>, meaning: Json) {
    ghost predicate Intact()
      reads if value.Nested? then {value.dict} + value.dict.repr else {}
    {
      Whole(value) && Footprint(value) == dicts && Meaning(value) == meaning
    }
  }

  ghost function DictsOf(chosen: seq<Choice>): set<Dict> {
    set choice, d | choice in chosen && d in choice.dicts :: d
  }

  ghost predicate Separate(chosen: seq<Choice>, own: set<Dict>) {
    && (forall i :: 0 <= i < |chosen| ==> chosen[i].dicts !! own && (chosen[i].value.Plain? ==> chosen[i].dicts == {}))
    && (forall i, j :: 0 <= i < j < |chosen| ==> chosen[i].dicts !! chosen[j].dicts)
  }

  /** The choices are those of `values`, untouched. */
  ghost predicate Chosen(values: seq<Value>, chosen: seq<Choice>)
    reads set choice | choice in chosen && choice.value.Nested? :: choice.value.dict
    reads set choice, d | choice in chosen && choice.value.Nested? && d in choice.value.dict.repr :: d
  {
    && |values| == |chosen|
    && (forall i :: 0 <= i < |chosen| ==> chosen[i].value == values[i] && chosen[i].Intact())
  }

  /** What `_set_matrix_path` may write over all paths of a combination: when they are apart only the payload's own
      dictionaries, never one that belongs to a value. */
  ghost function Writable(own: set<Dict>, apart: bool, chosen: seq<Choice>): set<Dict> {
    if apart then own else own + DictsOf(chosen)
  }

  /** The first `i` values are in the payload, at their paths; the others are as they were. */
  ghost predicate Placed(payload: Dict, own: set<Dict>, apart: bool, todo: seq<Assignment>, chosen: seq<Choice>,
                         i: nat)
    requires i <= |todo| == |chosen|
    reads payload, payload.repr
  {
    && payload.Valid()
    && payload.repr <= own + DictsOf(chosen)
    && (forall j :: i <= j < |chosen| ==> chosen[j].dicts !! payload.repr)
    && (apart ==> forall j :: 0 <= j < i && chosen[j].value.Nested? ==>
          && PlacedAt(payload, todo[j].0) == Some(chosen[j].value.dict)
          && chosen[j].value.dict in payload.repr && chosen[j].value.dict.repr == chosen[j].dicts)
  }

  ghost function Meanings(chosen: seq<Choice>): seq<Json> {
    seq(|chosen|, i requires 0 <= i < |chosen| => chosen[i].meaning)
  }

  /** The assignments of a combination, which are prefix-free when the paths are. */
  ghost predicate Assigns(todo: seq<Assignment>, paths: seq<string>, chosen: seq<Choice>) {
    && |todo| == |paths| == |chosen|
    && forall i :: 0 <= i < |todo| ==> todo[i] == (Split(paths[i], '.'), chosen[i].meaning)
  }

  ghost predicate ApartFromEarlier(todo: seq<Assignment>, i: nat)
    requires i < |todo|
  {
    forall j :: 0 <= j < i ==> Apart(todo[j].0, todo[i].0)
  }

  ghost predicate AllApart(todo: seq<Assignment>) {
    forall i :: 0 <= i < |todo| ==> ApartFromEarlier(todo, i)
  }

  lemma PathsStayApart(paths: seq<string>, chosen: seq<Choice>)
    requires PathsApart(paths) && |paths| == |chosen|
    ensures AllApart(Zip(paths, Meanings(chosen))) && Assigns(Zip(paths, Meanings(chosen)), paths, chosen)
  {
  }

  /** The next assignment passes through no dictionary of a value still to come and, with prefix-free paths, of none
      that is already in the payload. */
  lemma SpineIsOwn(payload: Dict, own: set<Dict>, apart: bool, todo: seq<Assignment>, chosen: seq<Choice>, i: nat)
    requires i < |todo| == |chosen| && (apart ==> ApartFromEarlier(todo, i)) && Separate(chosen, own)
    requires Placed(payload, own, apart, todo, chosen, i)
    ensures Spine(payload, todo[i].0) <= Writable(own, apart, chosen)
    ensures apart ==> forall j :: 0 <= j < i && chosen[j].value.Nested? ==>
              chosen[j].value.dict in chosen[j].dicts && chosen[j].dicts !! Spine(payload, todo[i].0)
  {
    ReachedInside(payload, todo[i].0);
    if apart {
      forall j | 0 <= j < i && chosen[j].value.Nested?
        ensures chosen[j].value.dict in chosen[j].dicts && chosen[j].dicts !! Spine(payload, todo[i].0)
      {
        PlacedInside(payload, todo[j].0);
        PlacedValuesStay(payload, todo[j].0, todo[i].0);
      }
    }
  }

  lemma DictsIncluded(chosen: seq<Choice>, i: nat)
    requires i < |chosen|
    ensures chosen[i].dicts <= DictsOf(chosen)
  {
  }

  lemma AssignNext(base: Fields, todo: seq<Assignment>, i: nat, partial: Fields)
    requires i < |todo| && SetAll(base, todo[..i]) == Ok(partial)
    ensures var next := SetPath(partial, [], todo[i].0, todo[i].1);
            SetAll(base, todo[..i + 1]) == next && (next.Err? ==> SetAll(base, todo) == next)
  {
    assert todo[..i + 1][..i] == todo[..i];
    if SetAll(base, todo[..i + 1]).Err? {
      ErrorStays(base, todo, i + 1);
    }
  }

  /** `_set_matrix_path(payload, path, value)` for the next path. */
  method ApplyNext(payload: Dict, path: string, value: Value,
                   ghost own: set<Dict>, ghost apart: bool, ghost todo: seq<Assignment>,
                   ghost chosen: seq<Choice>, ghost i: nat)
    returns (r: Result<(), MatrixError>)
    requires i < |todo| == |chosen| && (apart ==> ApartFromEarlier(todo, i)) && Separate(chosen, own)
    requires Placed(payload, own, apart, todo, chosen, i)
    requires chosen[i].Intact() && value == chosen[i].value && todo[i] == (Split(path, '.'), chosen[i].meaning)
    modifies Writable(own, apart, chosen) * Spine(payload, todo[i].0)
    ensures payload.Valid()
    ensures r.Ok? ==> Placed(payload, own, apart, todo, chosen, i + 1)
    ensures r.Ok? ==> SetPath(old(payload.View()), [], todo[i].0, todo[i].1) == Ok(payload.View())
    ensures r.Err? ==> SetPath(old(payload.View()), [], todo[i].0, todo[i].1) == Err(r.error)
  {
    SpineIsOwn(payload, own, apart, todo, chosen, i);
    ReachedInside(payload, todo[i].0);
    DictsIncluded(chosen, i);
    r := SetMatrixPath(payload, [], Split(path, '.'), value);
    if r.Ok? && apart {
      forall j | 0 <= j < i && chosen[j].value.Nested?
        ensures PlacedAt(payload, todo[j].0) == Some(chosen[j].value.dict)
        ensures chosen[j].value.dict.repr == chosen[j].dicts
      {
      }
    }
  }

  /** `_set_matrix_path` once per path of the combination. With prefix-free paths no dictionary of a value is written,
      although the payload now holds those very dictionaries. */
  method ApplyInPlace(payload: Dict, paths: seq<string>, values: seq<Value>,
                      ghost apart: bool, ghost todo: seq<Assignment>, ghost chosen: seq<Choice>)
    returns (r: Result<(), MatrixError>)
    requires payload.Valid() && Chosen(values, chosen) && Separate(chosen, payload.repr)
    requires Assigns(todo, paths, chosen) && (apart ==> AllApart(todo))
    modifies Writable(payload.repr, apart, chosen)
    ensures payload.Valid()
    ensures r.Err? ==> SetAll(old(payload.View()), todo) == Err(r.error)
    ensures r.Ok? ==> Placed(payload, old(payload.repr), apart, todo, chosen, |chosen|)
    ensures r.Ok? ==> SetAll(old(payload.View()), todo) == Ok(payload.View())
  {
    ghost var base, own := payload.View(), payload.repr;
    for i := 0 to |paths|
      invariant Placed(payload, own, apart, todo, chosen, i)
      invariant SetAll(base, todo[..i]) == Ok(payload.View())
      invariant forall j :: i <= j < |chosen| ==> chosen[j].Intact()
    {
      AssignNext(base, todo, i, payload.View());
      ReachedInside(payload, todo[i].0);
      label Before:
      r := ApplyNext(payload, paths[i], values[i], own, apart, todo, chosen, i);
      if r.Err? {
        return;
      }
      forall j | i < j < |chosen| ensures chosen[j].Intact() {
        assert old@Before(chosen[j].Intact());
        assert unchanged@Before(chosen[j].dicts);
      }
    }
    assert todo[..|paths|] == todo;
    r := Ok(());
  }

  /** `deepcopy` of one entry. */
  method CopyEntry(base: Dict, key: string, copy: Dict)
    requires base.Valid() && key in base.entries && copy.Valid() && base.repr !! copy.repr
    modifies copy
    ensures base.Valid() && base.View() == old(base.View())
    ensures copy.Valid() && fresh(copy.repr - old(copy.repr))
    ensures copy.View() == old(copy.View())[key := base.View()[key]]
    decreases base.repr, 0
  {
    var value := base.entries[key];
    assert Meaning(value) == base.ViewOf(key);
    if value.Nested? {
      var child := DeepCopy(value.dict);
      value := Nested(child);
    }
    copy.Put(key, value);
  }

  lemma OneMoreKey(view: Fields, rest: set<string>, key: string)
    requires key in rest && rest <= view.Keys
    ensures view - (rest - {key}) == (view - rest)[key := view[key]]
  {
  }

  /** `deepcopy(base_payload)`. */
  method DeepCopy(base: Dict) returns (copy: Dict)
    requires base.Valid()
    ensures copy.Valid() && fresh(copy.repr) && copy.View() == base.View()
    decreases base.repr, 1
  {
    ghost var view := base.View();
    copy := new Dict();
    var rest := base.entries.Keys;
    while rest != {}
      invariant rest <= base.entries.Keys
      invariant copy.Valid() && fresh(copy.repr)
      invariant base.View() == view && copy.View() == view - rest
    {
      var key :| key in rest;
      OneMoreKey(view, rest, key);
      CopyEntry(base, key, copy);
      rest := rest - {key};
    }
  }

  ghost predicate PayloadOf(payload: Dict, base: Fields, todo: seq<Assignment>)
    reads payload, payload.repr
  {
    payload.Valid() && SetAll(base, todo) == Ok(payload.View())
  }

  /** One combination over a copy of the base. Nothing that existed before is written, the values included. */
  method BuildPayload(base: Dict, paths: seq<string>, values: seq<Value>,
                      ghost todo: seq<Assignment>, ghost chosen: seq<Choice>)
    returns (r: Result<Dict, MatrixError>)
    requires base.Valid() && Chosen(values, chosen) && Separate(chosen, {})
    requires Assigns(todo, paths, chosen) && AllApart(todo)
    ensures r.Ok? ==> PayloadOf(r.value, base.View(), todo)
    ensures r.Err? ==> SetAll(base.View(), todo) == Err(r.error)
  {
    var payload := DeepCopy(base);
    var applied := ApplyInPlace(payload, paths, values, true, todo, chosen);
    if applied.Err? {
      return Err(applied.error);
    }
    return Ok(payload);
  }

  /** What the combinations assign. */
  ghost function Assignments(paths: seq<string>, chosen: seq<seq<Choice>>): (all: seq<seq<Assignment>>)
    requires forall k :: 0 <= k < |chosen| ==> |chosen[k]| == |paths|
    ensures |all| == |chosen|
  {
    seq(|chosen|, k requires 0 <= k < |chosen| => Zip(paths, Meanings(chosen[k])))
  }

  ghost predicate FirstRefused(error: MatrixError, base: Fields, all: seq<seq<Assignment>>, k: nat) {
    k < |all| && SetAll(base, all[k]) == Err(error) && forall j :: 0 <= j < k ==> SetAll(base, all[j]).Ok?
  }

  /** Every combination in turn, over one base and values that recur from combination to combination. A payload built
      earlier is still that of its own combination when all are built; otherwise the first combination that cannot be
      assigned raises. */
  method BuildPayloads(base: Dict, paths: seq<string>, combinations: seq<seq<Value>>, ghost chosen: seq<seq<Choice>>)
    returns (r: Result<seq<Dict>, MatrixError>)
    requires PathsApart(paths)
    requires base.Valid() && |chosen| == |combinations|
    requires forall k :: 0 <= k < |chosen| ==> |chosen[k]| == |paths| && Separate(chosen[k], {})
    requires forall k :: 0 <= k < |chosen| ==> Chosen(combinations[k], chosen[k])
    ensures r.Ok? ==> |r.value| == |chosen| &&
                      forall k :: 0 <= k < |chosen| ==>
                        PayloadOf(r.value[k], base.View(), Assignments(paths, chosen)[k])
    ensures r.Err? ==> exists k :: FirstRefused(r.error, base.View(), Assignments(paths, chosen), k)
  {
    ghost var all := Assignments(paths, chosen);
    var payloads: seq<Dict> := [];
    for k := 0 to |combinations|
      invariant |payloads| == k
      invariant forall j :: 0 <= j < k ==> PayloadOf(payloads[j], base.View(), all[j])
    {
      PathsStayApart(paths, chosen[k]);
      var payload := BuildPayload(base, paths, combinations[k], all[k], chosen[k]);
      if payload.Err? {
        assert FirstRefused(payload.error, base.View(), all, k);
        return Err(payload.error);
      }
      payloads := payloads + [payload.value];
    }
    return Ok(payloads);
  }
}
