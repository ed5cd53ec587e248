/** Layered configuration merging, by paths. */
module DeepMerge {
  import opened Wrappers

  type Fields = map<string, Json>

  datatype Json =
    | Null
    | Scalar(text: string)
    | List(items: seq<Json>)
    | Mapping(fields: map<string, Json>)

  type Path = seq<string>

  /** Mappings merge key by key; anything else in the override, null and lists included, replaces. */
  function Merge(base: Fields, over: Fields): (r: Fields)
    ensures r.Keys == base.Keys + over.Keys
    decreases Mapping(over)
  {
    map k | k in base.Keys + over.Keys ::
      if k !in over then base[k]
      else if k in base && base[k].Mapping? && over[k].Mapping? then
        Mapping(Merge(base[k].fields, over[k].fields))
      else over[k]
  }

  /** What the loop has when only the keys of `todo` are still to be written. */
  function Partial(base: Fields, over: Fields, todo: set<string>): Fields {
    map k | k in base.Keys + (over.Keys - todo) :: if k in todo then base[k] else Merge(base, over)[k]
  }

  function At(fields: Fields, key: string): Option<Json> {
    if key in fields then Some(fields[key]) else None
  }

  lemma PartialStep(base: Fields, over: Fields, todo: set<string>, key: string, value: Json)
    requires key in todo && todo <= over.Keys
    requires Some(value) == MergedAt(At(Partial(base, over, todo), key), Some(over[key]))
    ensures Partial(base, over, todo - {key}) == Partial(base, over, todo)[key := value]
  {
    assert value == Merge(base, over)[key];
  }

  lemma PartialEnds(base: Fields, over: Fields)
    ensures Partial(base, over, over.Keys) == base && Partial(base, over, {}) == Merge(base, over)
  {
  }

  /** `_deep_merge`: a copy of the base, into which the override's keys are written one by one. */
  method DeepMerge(base: Fields, over: Fields) returns (result: Fields)
    ensures result == Merge(base, over)
    decreases Mapping(over), 0
  {
    PartialEnds(base, over);
    result := base;
    var todo := over.Keys;
    while todo != {}
      invariant todo <= over.Keys && result == Partial(base, over, todo)
      decreases todo
    {
      var key :| key in todo;
      var value := MergeValue(At(result, key), over[key]);
      PartialStep(base, over, todo, key, value);
      result := result[key := value];
      todo := todo - {key};
    }
  }

  method MergeValue(existing: Option<Json>, value: Json) returns (merged: Json)
    ensures Some(merged) == MergedAt(existing, Some(value))
    decreases value, 1
  {
    if existing.Some? && existing.value.Mapping? && value.Mapping? {
      var fields := DeepMerge(existing.value.fields, value.fields);
      return Mapping(fields);
    }
    return value;
  }

  // ----- paths -----

  function Lookup(fields: Fields, path: Path): Option<Json>
    decreases |path|
  {
    if path == [] then Some(Mapping(fields))
    else if path[0] !in fields then None
    else
      var v := fields[path[0]];
      if |path| == 1 then Some(v)
      else if v.Mapping? then Lookup(v.fields, path[1..])
      else None
  }

  /** A value that is not a mapping stands at a proper prefix of the path. */
  predicate Cut(fields: Fields, path: Path)
    decreases |path|
  {
    |path| > 1 && path[0] in fields
    && (if fields[path[0]].Mapping? then Cut(fields[path[0]].fields, path[1..]) else true)
  }

  function MergedAt(b: Option<Json>, o: Option<Json>): Option<Json> {
    if o.None? then b
    else if b.Some? && b.value.Mapping? && o.value.Mapping? then
      Some(Mapping(Merge(b.value.fields, o.value.fields)))
    else o
  }

  /** What every path of the merge holds: nothing below a replacing value of the override, and otherwise the merge of
      what the two layers hold there. */
  lemma {:induction false} PathsOfMerge(base: Fields, over: Fields, path: Path)
    ensures Lookup(Merge(base, over), path) ==
            if Cut(over, path) then None else MergedAt(Lookup(base, path), Lookup(over, path))
    decreases |path|
  {
    if |path| > 1 && path[0] in over && over[path[0]].Mapping? {
      var o := over[path[0]].fields;
      if path[0] in base && base[path[0]].Mapping? {
        PathsOfMerge(base[path[0]].fields, o, path[1..]);
      } else {
        CutHasNothingBelow(o, path[1..]);
      }
    }
  }

  lemma {:induction false} CutHasNothingBelow(fields: Fields, path: Path)
    ensures Cut(fields, path) ==> Lookup(fields, path).None?
    decreases |path|
  {
    if |path| > 1 && path[0] in fields && fields[path[0]].Mapping? {
      CutHasNothingBelow(fields[path[0]].fields, path[1..]);
    }
  }

  /** Every leaf of the override is read back unchanged. */
  lemma OverrideLeavesWin(base: Fields, over: Fields, path: Path)
    requires Lookup(over, path).Some? && !Lookup(over, path).value.Mapping?
    ensures Lookup(Merge(base, over), path) == Lookup(over, path)
  {
    PathsOfMerge(base, over, path);
    CutHasNothingBelow(over, path);
  }

  /** Every path at which the override says nothing, and above which it replaces nothing, keeps the base value. */
  lemma UntouchedPathsStay(base: Fields, over: Fields, path: Path)
    requires Lookup(over, path).None? && !Cut(over, path)
    ensures Lookup(Merge(base, over), path) == Lookup(base, path)
  {
    PathsOfMerge(base, over, path);
  }

  // ----- laws -----

  lemma {:induction false} MergeSelf(m: Fields)
    ensures Merge(m, m) == m
    decreases Mapping(m)
  {
    forall k | k in m ensures Merge(m, m)[k] == m[k] {
      if m[k].Mapping? {
        MergeSelf(m[k].fields);
      }
    }
  }

  /** Applying the same override twice is applying it once. */
  lemma {:induction false} MergeIdempotent(base: Fields, over: Fields)
    ensures Merge(Merge(base, over), over) == Merge(base, over)
    decreases Mapping(over)
  {
    var once := Merge(base, over);
    forall k | k in once.Keys ensures Merge(once, over)[k] == once[k] {
      if k in over && over[k].Mapping? {
        if k in base && base[k].Mapping? {
          MergeIdempotent(base[k].fields, over[k].fields);
        } else {
          MergeSelf(over[k].fields);
        }
      }
    }
  }

  /** The override already decides everything the base has. */
  predicate Subsumed(base: Fields, over: Fields)
    decreases Mapping(base)
  {
    forall k :: k in base ==>
      k in over && (base[k].Mapping? && over[k].Mapping? ==> Subsumed(base[k].fields, over[k].fields))
  }

  lemma {:induction false} SubsumedExactly(base: Fields, over: Fields)
    ensures Merge(base, over) == over <==> Subsumed(base, over)
    decreases Mapping(base)
  {
    var r := Merge(base, over);
    forall k | k in base && k in over && base[k].Mapping? && over[k].Mapping?
      ensures r[k] == over[k] <==> Subsumed(base[k].fields, over[k].fields)
    {
      SubsumedExactly(base[k].fields, over[k].fields);
    }
    if Subsumed(base, over) {
      assert r.Keys == over.Keys;
      assert forall k :: k in r ==> r[k] == over[k];
    }
    if r == over {
      assert forall k :: k in base ==> k in over;
    }
  }

  /** Somewhere the first and third layers hold mappings, the middle one replaces them by something else, and the
      first mapping has something the third does not decide. */
  predicate Clash(a: Fields, b: Fields, c: Fields)
    decreases Mapping(a)
  {
    exists k :: k in a && k in b && k in c && a[k].Mapping? && c[k].Mapping? &&
      (if b[k].Mapping? then Clash(a[k].fields, b[k].fields, c[k].fields)
       else !Subsumed(a[k].fields, c[k].fields))
  }

  /** Merging three layers from the left or from the right agrees exactly when there is no such clash. */
  lemma {:induction false} AssociativeExactly(a: Fields, b: Fields, c: Fields)
    ensures Merge(Merge(a, b), c) == Merge(a, Merge(b, c)) <==> !Clash(a, b, c)
    decreases Mapping(a)
  {
    var l, r := Merge(Merge(a, b), c), Merge(a, Merge(b, c));
    assert l.Keys == r.Keys;
    forall k | k in l
      ensures l[k] == r[k] <==>
              !(k in a && k in b && k in c && a[k].Mapping? && c[k].Mapping? &&
                (if b[k].Mapping? then Clash(a[k].fields, b[k].fields, c[k].fields)
                 else !Subsumed(a[k].fields, c[k].fields)))
    {
      AssociativeAtKey(a, b, c, k);
      if k in a && k in b && k in c && a[k].Mapping? && c[k].Mapping? && b[k].Mapping? {
        AssociativeExactly(a[k].fields, b[k].fields, c[k].fields);
      }
    }
  }

  lemma AssociativeAtKey(a: Fields, b: Fields, c: Fields, k: string)
    requires k in a || k in b || k in c
    ensures var l, r := Merge(Merge(a, b), c), Merge(a, Merge(b, c));
            if k in a && k in b && k in c && a[k].Mapping? && c[k].Mapping? then
              (if b[k].Mapping? then
                 (l[k] == r[k] <==>
                   Merge(Merge(a[k].fields, b[k].fields), c[k].fields)
                   == Merge(a[k].fields, Merge(b[k].fields, c[k].fields)))
               else (l[k] == r[k] <==> Subsumed(a[k].fields, c[k].fields)))
            else l[k] == r[k]
  {
    if k in a && k in b && k in c && a[k].Mapping? && c[k].Mapping? && !b[k].Mapping? {
      SubsumedExactly(a[k].fields, c[k].fields);
    }
  }

  /** The same condition by paths. */
  ghost predicate ClashAt(a: Fields, b: Fields, c: Fields, path: Path) {
    var x, y, z := Lookup(a, path), Lookup(b, path), Lookup(c, path);
    path != [] && x.Some? && y.Some? && z.Some? && x.value.Mapping? && !y.value.Mapping? && z.value.Mapping?
    && !Subsumed(x.value.fields, z.value.fields)
  }

  lemma {:induction false} ClashHasPath(a: Fields, b: Fields, c: Fields) returns (path: Path)
    requires Clash(a, b, c)
    ensures ClashAt(a, b, c, path)
    decreases Mapping(a)
  {
    var k :| k in a && k in b && k in c && a[k].Mapping? && c[k].Mapping? &&
      (if b[k].Mapping? then Clash(a[k].fields, b[k].fields, c[k].fields)
       else !Subsumed(a[k].fields, c[k].fields));
    if b[k].Mapping? {
      var rest := ClashHasPath(a[k].fields, b[k].fields, c[k].fields);
      path := [k] + rest;
      assert path[1..] == rest;
    } else {
      path := [k];
    }
  }

  lemma {:induction false} PathGivesClash(a: Fields, b: Fields, c: Fields, path: Path)
    requires ClashAt(a, b, c, path)
    ensures Clash(a, b, c)
    decreases |path|
  {
    if |path| > 1 {
      var k := path[0];
      PathGivesClash(a[k].fields, b[k].fields, c[k].fields, path[1..]);
    }
  }

  /** The layers associate exactly when no path holds a mapping in the first and third layer, a non-mapping in the
      middle one, and a first mapping that the third does not subsume. */
  lemma AssociativeByPaths(a: Fields, b: Fields, c: Fields)
    ensures Merge(Merge(a, b), c) == Merge(a, Merge(b, c)) <==> forall path :: !ClashAt(a, b, c, path)
  {
    AssociativeExactly(a, b, c);
    if Clash(a, b, c) {
      var path := ClashHasPath(a, b, c);
    }
    forall path | ClashAt(a, b, c, path) ensures Clash(a, b, c) {
      PathGivesClash(a, b, c, path);
    }
  }

  // ----- the layers of a target configuration -----

  /** What one more layer makes of the value a path had: nothing below a replaced value, and otherwise the merge. */
  function Layered(below: Option<Json>, layer: Fields, path: Path): Option<Json> {
    if Cut(layer, path) then None else MergedAt(below, Lookup(layer, path))
  }

  /** Adapter defaults, then the declared protocol, then the overrides: what every path of the result holds. */
  method ResolveProtocol(defaults: Fields, declared: Fields, overrides: Fields) returns (protocol: Fields)
    ensures forall path :: Lookup(protocol, path) ==
                           Layered(Layered(Lookup(defaults, path), declared, path), overrides, path)
    ensures forall path :: Lookup(overrides, path).Some? && !Lookup(overrides, path).value.Mapping? ==>
              Lookup(protocol, path) == Lookup(overrides, path)
    ensures forall path :: (Lookup(overrides, path).None? && !Cut(overrides, path)
                            && Lookup(declared, path).Some? && !Lookup(declared, path).value.Mapping?) ==>
              Lookup(protocol, path) == Lookup(declared, path)
    ensures forall path :: (Lookup(overrides, path).None? && !Cut(overrides, path)
                            && Lookup(declared, path).None? && !Cut(declared, path)) ==>
              Lookup(protocol, path) == Lookup(defaults, path)
  {
    var merged := DeepMerge(defaults, declared);
    protocol := DeepMerge(merged, overrides);
    forall path
      ensures Lookup(protocol, path) == Layered(Layered(Lookup(defaults, path), declared, path), overrides, path)
    {
      PathsOfMerge(defaults, declared, path);
      PathsOfMerge(merged, overrides, path);
    }
    forall path ensures Cut(overrides, path) ==> Lookup(overrides, path).None? {
      CutHasNothingBelow(overrides, path);
    }
    forall path ensures Cut(declared, path) ==> Lookup(declared, path).None? {
      CutHasNothingBelow(declared, path);
    }
  }
}
