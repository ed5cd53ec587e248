/** The payload as the nested dictionaries it is, written in place. */
module MatrixPayload {
  import opened Wrappers
  import opened DeepMerge
  import opened Matrix

  datatype Value = Plain(json: Json) | Nested(dict: Dict)

  class Dict {
    var entries: map<string, Value>
    ghost var repr: set<Dict>

    ghost predicate Owns(value: Value)
      reads this
    {
      match value
      case Plain(json) => !json.Mapping?
      case Nested(dict) => dict in repr && dict != this
    }

    /** The dictionaries form a tree: no two entries share one. */
    ghost predicate Valid()
      reads this, repr
      decreases repr
    {
      && this in repr
      && (forall key :: key in entries ==> Owns(entries[key]))
      && (forall key :: key in entries && entries[key].Nested? ==>
            && entries[key].dict.repr <= repr - {this}
            && entries[key].dict.Valid())
      && (forall k, l :: k in entries && l in entries && k != l && entries[k].Nested? && entries[l].Nested? ==>
            entries[k].dict.repr !! entries[l].dict.repr)
    }

    ghost function View(): Fields
      requires Valid()
      reads this, repr
      decreases repr
    {
      map key | key in entries :: ViewOf(key)
    }

    ghost function ViewOf(key: string): Json
      requires Valid() && key in entries
      reads this, repr
      decreases repr, 0
    {
      match entries[key]
      case Plain(json) => json
      case Nested(dict) => Mapping(dict.View())
    }

    /** The dictionaries at the other keys are as they were. */
    twostate lemma KeptBesides(key: string)
      requires old(Valid()) && forall d :: d in old(repr) && d != this ==> unchanged(d)
      requires forall k :: k in old(entries) && k != key ==> k in entries && entries[k] == old(entries[k])
      ensures forall k :: k in old(entries) && k != key && entries[k].Nested? ==>
                entries[k].dict.Valid() && entries[k].dict.View() == old(entries[k].dict.View())
                && entries[k].dict.repr == old(entries[k].dict.repr)
    {
    }

    /** `current[part] = value`. */
    method Put(key: string, value: Value)
      requires Valid() && Whole(value) && Footprint(value) !! repr
      modifies this
      ensures Valid() && repr == old(repr) + old(Footprint(value))
      ensures View() == old(View())[key := old(Meaning(value))]
      ensures entries == old(entries)[key := value]
    {
      entries := entries[key := value];
      repr := repr + Footprint(value);
      KeptBesides(key);
      assert Valid();
      assert ViewOf(key) == old(Meaning(value));
    }

    /** Only the dictionary at one key was written, and what it adopted was noted here. */
    twostate predicate WroteBelow(key: string)
      requires old(Valid())
      reads this, repr
      reads if key in entries && entries[key].Nested? then {entries[key].dict} + entries[key].dict.repr else {}
    {
      && key in old(entries) && old(entries[key]).Nested?
      && entries == old(entries)
      && old(repr) <= repr
      && entries[key].dict.Valid()
      && entries[key].dict.repr == old(entries[key].dict.repr) + (repr - old(repr))
      && (forall d :: d in old(repr) && d != this && d !in old(entries[key].dict.repr) ==> unchanged(d))
    }

    /** Writing inside the dictionary at one key changes this one at that key alone. */
    twostate lemma ChangedBelow(key: string)
      requires old(Valid()) && WroteBelow(key)
      ensures Valid() && View() == old(View())[key := Mapping(entries[key].dict.View())]
    {
      assert forall k :: k in entries && k != key ==> ViewOf(k) == old(ViewOf(k));
      assert ViewOf(key) == Mapping(entries[key].dict.View());
    }

    /** An entry written at one key leaves the mappings at paths through the other keys where they are. */
    twostate lemma PlacedBesides(parts: Path)
      requires |parts| == 1 && old(Valid()) && Valid()
      requires forall d :: d in old(repr) && d != this ==> unchanged(d)
      requires forall k :: k != parts[0] ==> (k in entries <==> k in old(entries))
      requires forall k :: k != parts[0] && k in old(entries) ==> entries[k] == old(entries[k])
      ensures forall path: Path :: path != [] && Apart(path, parts) ==>
                PlacedAt(this, path) == old(PlacedAt(this, path))
    {
      forall path: Path | path != [] && Apart(path, parts)
        ensures PlacedAt(this, path) == old(PlacedAt(this, path))
      {
        ApartTails(path, parts);
      }
    }

    /** Writing inside the dictionary at `parts[0]` moves mappings below that key only as it does inside. */
    twostate lemma PlacedBelow(parts: Path)
      requires |parts| > 1 && old(Valid()) && Valid() && WroteBelow(parts[0])
      requires PlacedElsewhere(entries[parts[0]].dict, parts[1..])
      ensures PlacedAt(this, parts) == PlacedAt(entries[parts[0]].dict, parts[1..])
      ensures PlacedElsewhere(this, parts)
    {
      forall path: Path | path != [] && Apart(path, parts)
        ensures PlacedAt(this, path) == old(PlacedAt(this, path))
      {
        ApartTails(path, parts);
      }
    }

    constructor ()
      ensures Valid() && View() == map[] && repr == {this}
    {
      entries := map[];
      repr := {this};
    }
  }

  ghost function Footprint(value: Value): set<Dict>
    reads if value.Nested? then {value.dict} else {}
  {
    if value.Nested? then value.dict.repr else {}
  }

  ghost predicate Whole(value: Value)
    reads if value.Nested? then {value.dict} + value.dict.repr else {}
  {
    match value
    case Plain(json) => !json.Mapping?
    case Nested(dict) => dict.Valid()
  }

  ghost function Meaning(value: Value): Json
    requires Whole(value)
    reads if value.Nested? then {value.dict} + value.dict.repr else {}
  {
    match value
    case Plain(json) => json
    case Nested(dict) => Mapping(dict.View())
  }

  // ----- which dictionary is written -----

  /** The dictionary in which an assignment to `parts` ends. */
  ghost function Reached(current: Dict, parts: Path): Dict
    requires parts != [] && current.Valid()
    reads current, current.repr
    decreases |parts|
  {
    if |parts| == 1 || parts[0] !in current.entries || current.entries[parts[0]].Plain? then current
    else Reached(current.entries[parts[0]].dict, parts[1..])
  }

  /** The dictionaries on the way there, and that one. */
  ghost function Spine(current: Dict, parts: Path): set<Dict>
    requires parts != [] && current.Valid()
    reads current, current.repr
    decreases |parts|
  {
    if |parts| == 1 || parts[0] !in current.entries || current.entries[parts[0]].Plain? then {current}
    else {current} + Spine(current.entries[parts[0]].dict, parts[1..])
  }

  /** The mapping at `path`, if one is there. */
  ghost function PlacedAt(current: Dict, path: Path): Option<Dict>
    requires path != [] && current.Valid()
    reads current, current.repr
    decreases |path|
  {
    if path[0] !in current.entries || current.entries[path[0]].Plain? then None
    else if |path| == 1 then Some(current.entries[path[0]].dict)
    else PlacedAt(current.entries[path[0]].dict, path[1..])
  }

  lemma {:induction false} PlacedInside(current: Dict, path: Path)
    requires path != [] && current.Valid() && PlacedAt(current, path).Some?
    ensures path[0] in current.entries && current.entries[path[0]].Nested?
    ensures var placed := PlacedAt(current, path).value;
            && placed in current.entries[path[0]].dict.repr
            && placed.Valid() && placed.repr <= current.entries[path[0]].dict.repr
    decreases |path|
  {
    assert current.entries[path[0]].dict.Valid();
    if |path| > 1 {
      PlacedInside(current.entries[path[0]].dict, path[1..]);
    }
  }

  lemma {:induction false} ReachedInside(current: Dict, parts: Path)
    requires parts != [] && current.Valid()
    ensures Reached(current, parts) in Spine(current, parts) && Spine(current, parts) <= current.repr
    decreases |parts|
  {
    if |parts| > 1 && parts[0] in current.entries && current.entries[parts[0]].Nested? {
      ReachedInside(current.entries[parts[0]].dict, parts[1..]);
    }
  }

  /** No dictionary inside a placed mapping is visited, let alone written, by an assignment to a path apart from it. So
      with prefix-free paths a mapping value that several combinations share is never changed. */
  lemma {:induction false} PlacedValuesStay(current: Dict, path: Path, other: Path)
    requires path != [] && other != [] && Apart(path, other)
    requires current.Valid() && PlacedAt(current, path).Some?
    ensures Spine(current, other) !! PlacedAt(current, path).value.repr
    ensures Reached(current, other) !in PlacedAt(current, path).value.repr
    decreases |path|
  {
    ApartTails(path, other);
    PlacedInside(current, path);
    ReachedInside(current, other);
    if path[0] == other[0] {
      PlacedValuesStay(current.entries[path[0]].dict, path[1..], other[1..]);
    } else if |other| > 1 && other[0] in current.entries && current.entries[other[0]].Nested? {
      ReachedInside(current.entries[other[0]].dict, other[1..]);
    }
  }

  /** Mappings at the paths apart from `parts` are the ones that were there. */
  twostate predicate PlacedElsewhere(current: Dict, parts: Path)
    requires old(current.Valid()) && current.Valid()
    reads current, current.repr
  {
    forall path: Path :: path != [] && Apart(path, parts) ==> PlacedAt(current, path) == old(PlacedAt(current, path))
  }

  /** `_set_matrix_path` from the dictionary `current` on. Only dictionaries on the way there are written. */
  method SetMatrixPath(current: Dict, prefix: Path, parts: Path, value: Value)
    returns (r: Result<(), MatrixError>)
    requires parts != [] && current.Valid() && Whole(value) && Footprint(value) !! current.repr
    modifies Spine(current, parts)
    ensures current.Valid() && PlacedElsewhere(current, parts)
    ensures r.Err? ==> unchanged(old(current.repr))
    ensures r.Err? ==> SetPath(old(current.View()), prefix, parts, old(Meaning(value))) == Err(r.error)
    ensures r.Ok? ==> current.repr == old(current.repr) + old(Footprint(value))
    ensures r.Ok? ==> SetPath(old(current.View()), prefix, parts, old(Meaning(value))) == Ok(current.View())
    ensures r.Ok? && value.Nested? ==> PlacedAt(current, parts) == Some(value.dict)
    decreases |parts|, 1
  {
    var part := parts[0];
    if |parts| == 1 {
      if part !in current.entries && !AllowsNewKey(prefix) {
        return Err(InvalidPath);
      }
      current.Put(part, value);
      current.PlacedBesides(parts);
      return Ok(());
    }
    if part !in current.entries {
      return Err(InvalidPath);
    }
    if current.entries[part].Plain? {
      return Err(NotAMapping);
    }
    assert current.ViewOf(part) == Mapping(current.entries[part].dict.View());
    SetPathBelow(current.View(), prefix, parts, Meaning(value));
    r := SetBelow(current, prefix, parts, value);
    if r.Ok? {
      current.ChangedBelow(part);
      current.PlacedBelow(parts);
    }
  }

  lemma SetPathBelow(fields: Fields, prefix: Path, parts: Path, value: Json)
    requires |parts| > 1 && parts[0] in fields && fields[parts[0]].Mapping?
    ensures SetPath(fields, prefix, parts, value) ==
            match SetPath(fields[parts[0]].fields, prefix + [parts[0]], parts[1..], value)
            case Ok(inner) => Ok(fields[parts[0] := Mapping(inner)])
            case Err(error) => Err(error)
  {
  }

  /** `current = current[part]`, and on with the remaining components. */
  method SetBelow(current: Dict, prefix: Path, parts: Path, value: Value)
    returns (r: Result<(), MatrixError>)
    requires |parts| > 1 && current.Valid() && Whole(value) && Footprint(value) !! current.repr
    requires parts[0] in current.entries && current.entries[parts[0]].Nested?
    modifies Spine(current, parts)
    ensures r.Err? ==> unchanged(old(current.repr))
    ensures r.Ok? ==> current.WroteBelow(parts[0]) && current.repr == old(current.repr) + old(Footprint(value))
    ensures var child := old(current.entries[parts[0]].dict);
            && (r.Ok? ==> PlacedElsewhere(child, parts[1..]))
            && (r.Ok? && value.Nested? ==> PlacedAt(child, parts[1..]) == Some(value.dict))
            && SetPath(old(child.View()), prefix + [parts[0]], parts[1..], old(Meaning(value))) ==
               match r
               case Ok(_) => Ok(child.View())
               case Err(error) => Err(error)
    decreases |parts|, 0
  {
    ghost var added := Footprint(value);
    ReachedInside(current.entries[parts[0]].dict, parts[1..]);
    r := SetMatrixPath(current.entries[parts[0]].dict, prefix + [parts[0]], parts[1..], value);
    if r.Ok? {
      current.repr := current.repr + added;
    }
  }
}
