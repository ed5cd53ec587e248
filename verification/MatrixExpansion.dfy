/** The plan a matrix expands to: every combination in lexicographic order, one experiment per identity. */
module MatrixExpansion {
  import opened Wrappers
  import opened Sorting
  import opened Strings
  import opened DeepMerge
  import opened Matrix

  // ----- the Cartesian product -----

  function PrependAll<T>(first: T, rests: seq<seq<T>>): seq<seq<T>> {
    seq(|rests|, i requires 0 <= i < |rests| => [first] + rests[i])
  }

  function PrependEach<T>(firsts: seq<T>, rests: seq<seq<T>>): seq<seq<T>> {
    if firsts == [] then [] else PrependAll(firsts[0], rests) + PrependEach(firsts[1..], rests)
  }

  /** `itertools.product`: the last dimension varies fastest. */
  function Product<T>(values: seq<seq<T>>): seq<seq<T>> {
    if values == [] then [[]] else PrependEach(values[0], Product(values[1..]))
  }

  function Size<T>(values: seq<seq<T>>): nat {
    if values == [] then 1 else |values[0]| * Size(values[1..])
  }

  /** One position in every dimension. */
  predicate Choice<T>(values: seq<seq<T>>, digits: seq<nat>) {
    |digits| == |values| && forall i :: 0 <= i < |values| ==> digits[i] < |values[i]|
  }

  function Pick<T>(values: seq<seq<T>>, digits: seq<nat>): seq<T>
    requires Choice(values, digits)
  {
    seq(|values|, i requires 0 <= i < |values| => values[i][digits[i]])
  }

  predicate Before(a: seq<nat>, b: seq<nat>)
    requires |a| == |b|
  {
    a != [] && (a[0] < b[0] || (a[0] == b[0] && Before(a[1..], b[1..])))
  }

  function Rank<T>(values: seq<seq<T>>, digits: seq<nat>): nat
    requires |digits| == |values|
  {
    if values == [] then 0 else digits[0] * Size(values[1..]) + Rank(values[1..], digits[1..])
  }

  lemma ChoiceTail<T>(values: seq<seq<T>>, digits: seq<nat>)
    requires Choice(values, digits) && values != []
    ensures Choice(values[1..], digits[1..]) && digits[0] < |values[0]|
  {
  }

  lemma StepOver(i: nat, j: nat, size: nat, r: nat)
    requires i < j && r < size
    ensures i * size + r < j * size
  {
    assert (i + 1) * size <= j * size;
  }

  lemma BlockInside(i: nat, n: nat, size: nat, j: nat)
    requires i < n && j < size
    ensures 0 <= i * size + j < n * size
  {
    assert (i + 1) * size <= n * size;
  }

  lemma {:induction false} PrependEachAt<T>(firsts: seq<T>, rests: seq<seq<T>>, i: nat, j: nat)
    requires i < |firsts| && j < |rests|
    ensures |PrependEach(firsts, rests)| == |firsts| * |rests|
    ensures 0 <= i * |rests| + j < |firsts| * |rests|
    ensures PrependEach(firsts, rests)[i * |rests| + j] == [firsts[i]] + rests[j]
  {
    PrependEachSize(firsts, rests);
    BlockInside(i, |firsts|, |rests|, j);
    if i > 0 {
      PrependEachAt(firsts[1..], rests, i - 1, j);
      assert i * |rests| + j == |rests| + ((i - 1) * |rests| + j);
    }
  }

  lemma {:induction false} PrependEachSize<T>(firsts: seq<T>, rests: seq<seq<T>>)
    ensures |PrependEach(firsts, rests)| == |firsts| * |rests|
  {
    if firsts != [] {
      PrependEachSize(firsts[1..], rests);
      assert |firsts| * |rests| == |rests| + (|firsts| - 1) * |rests|;
    }
  }

  lemma {:induction false} ProductSize<T>(values: seq<seq<T>>)
    ensures |Product(values)| == Size(values)
  {
    if values != [] {
      ProductSize(values[1..]);
      PrependEachSize(values[0], Product(values[1..]));
    }
  }

  /** Every choice of one value per dimension stands at its rank. */
  lemma {:induction false} ProductAt<T>(values: seq<seq<T>>, digits: seq<nat>)
    requires Choice(values, digits)
    ensures Rank(values, digits) < |Product(values)| == Size(values)
    ensures Product(values)[Rank(values, digits)] == Pick(values, digits)
  {
    ProductSize(values);
    if values != [] {
      ChoiceTail(values, digits);
      ProductAt(values[1..], digits[1..]);
      ProductSize(values[1..]);
      PrependEachAt(values[0], Product(values[1..]), digits[0], Rank(values[1..], digits[1..]));
    }
  }

  lemma ChoiceCons<T>(values: seq<seq<T>>, first: nat, rest: seq<nat>)
    requires values != [] && first < |values[0]| && Choice(values[1..], rest)
    ensures Choice(values, [first] + rest)
    ensures Rank(values, [first] + rest) == first * Size(values[1..]) + Rank(values[1..], rest)
  {
    var digits := [first] + rest;
    assert digits[1..] == rest;
    forall i | 0 <= i < |values| ensures digits[i] < |values[i]| {
      assert i > 0 ==> digits[i] == rest[i - 1] && values[i] == values[1..][i - 1];
    }
  }

  lemma QuotientInside(k: nat, n: nat, size: nat)
    requires k < n * size
    ensures size > 0 && k / size < n && k == (k / size) * size + k % size
  {
    assert size > 0;
    if k / size < n {
    } else {
      StepOver(n - 1, k / size, size, size - 1);
      assert false;
    }
  }

  lemma SplitPosition(k: nat, n: nat, size: nat) returns (first: nat, within: nat)
    requires k < n * size
    ensures first < n && within < size && k == first * size + within
  {
    QuotientInside(k, n, size);
    first, within := k / size, k % size;
  }

  /** Every position of the product is the rank of a choice. */
  lemma {:induction false} ProductOnto<T>(values: seq<seq<T>>, k: nat) returns (digits: seq<nat>)
    requires k < |Product(values)|
    ensures Choice(values, digits) && Rank(values, digits) == k
  {
    ProductSize(values);
    if values == [] {
      digits := [];
    } else {
      ProductSize(values[1..]);
      var first, within := SplitPosition(k, |values[0]|, Size(values[1..]));
      var rest := ProductOnto(values[1..], within);
      digits := [first] + rest;
      ChoiceCons(values, first, rest);
    }
  }

  lemma {:induction false} RankInside<T>(values: seq<seq<T>>, digits: seq<nat>)
    requires Choice(values, digits)
    ensures Rank(values, digits) < Size(values)
  {
    ProductAt(values, digits);
  }

  /** The order of the product is the lexicographic order of the choices, the first dimension weighing most. */
  lemma {:induction false} RankOrders<T>(values: seq<seq<T>>, a: seq<nat>, b: seq<nat>)
    requires Choice(values, a) && Choice(values, b) && Before(a, b)
    ensures Rank(values, a) < Rank(values, b)
  {
    ChoiceTail(values, a);
    ChoiceTail(values, b);
    var size := Size(values[1..]);
    if a[0] < b[0] {
      RankInside(values[1..], a[1..]);
      StepOver(a[0], b[0], size, Rank(values[1..], a[1..]));
    } else {
      RankOrders(values[1..], a[1..], b[1..]);
    }
  }

  // ----- sorted paths -----

  /** `sorted(matrix)`: each key once, in code-point order. */
  ghost predicate Listing(paths: seq<string>, keys: set<string>) {
    && SortedBy(paths, StringLe)
    && (forall i, j :: 0 <= i < j < |paths| ==> paths[i] != paths[j])
    && (forall path :: path in keys <==> path in paths)
  }

  lemma DistinctOnce(paths: seq<string>, path: string)
    requires forall i, j :: 0 <= i < j < |paths| ==> paths[i] != paths[j]
    ensures multiset(paths)[path] == if path in paths then 1 else 0
  {
    if paths != [] {
      var front, last := paths[..|paths| - 1], paths[|paths| - 1];
      assert paths == front + [last];
      DistinctOnce(front, path);
    }
  }

  lemma ListingUnique(a: seq<string>, b: seq<string>, keys: set<string>)
    requires Listing(a, keys) && Listing(b, keys)
    ensures a == b
  {
    forall path ensures multiset(a)[path] == multiset(b)[path] {
      DistinctOnce(a, path);
      DistinctOnce(b, path);
    }
    StringOrder();
    assert Reflexive(StringLe) by {
      forall x ensures StringLe(x, x) {
        StringLeTotal(x, x);
      }
    }
    SortedIsUnique(a, b, StringLe);
  }

  method SortedPaths(keys: set<string>) returns (paths: seq<string>)
    ensures Listing(paths, keys)
  {
    var listed: seq<string> := [];
    var todo := keys;
    while todo != {}
      invariant todo <= keys && forall path :: path in keys - todo <==> path in listed
      invariant forall i, j :: 0 <= i < j < |listed| ==> listed[i] != listed[j]
      decreases todo
    {
      var path :| path in todo;
      assert path !in listed;
      listed := listed + [path];
      todo := todo - {path};
    }
    paths := SortBy(listed, StringLe);
    StringOrder();
    SortBySorts(listed, StringLe);
    SortedListing(listed, paths);
  }

  lemma SortedListing(listed: seq<string>, paths: seq<string>)
    requires multiset(paths) == multiset(listed)
    requires forall i, j :: 0 <= i < j < |listed| ==> listed[i] != listed[j]
    ensures forall path :: path in paths <==> path in listed
    ensures forall i, j :: 0 <= i < j < |paths| ==> paths[i] != paths[j]
  {
    forall path ensures path in paths <==> path in listed {
      assert path in multiset(paths) <==> path in multiset(listed);
    }
    forall i, j | 0 <= i < j < |paths| ensures paths[i] != paths[j] {
      if paths[i] == paths[j] {
        assert paths == paths[..i] + [paths[i]] + paths[i + 1..];
        assert paths[j] == paths[i + 1..][j - i - 1];
        assert paths[i] in multiset(paths[i + 1..]);
        assert multiset(paths)[paths[i]] >= 2;
        DistinctOnce(listed, paths[i]);
        assert false;
      }
    }
  }

  // ----- the plan -----

  datatype Planned<C> = Planned(config: C, configHash: string, parentHash: string)

  type Outcome<C> = Result<C, MatrixError>

  function Zip(paths: seq<string>, combination: seq<Json>): (todo: seq<Assignment>)
    requires |paths| == |combination|
  {
    seq(|paths|, i requires 0 <= i < |paths| => (Split(paths[i], '.'), combination[i]))
  }

  /** What one combination becomes: a payload that cannot be built or does not validate raises. */
  function Expanded<C>(base: Fields, paths: seq<string>, combination: seq<Json>, validate: Fields -> Option<C>)
    : Outcome<C>
    requires |paths| == |combination|
  {
    match SetAll(base, Zip(paths, combination))
    case Err(error) => Err(error)
    case Ok(payload) =>
      match validate(payload)
      case None => Err(InvalidConfiguration)
      case Some(config) => Ok(config)
  }

  /** The values of each dimension, in path order. */
  function Values(matrix: map<string, seq<Json>>, paths: seq<string>): (values: seq<seq<Json>>)
    requires forall path :: path in paths ==> path in matrix
  {
    seq(|paths|, i requires 0 <= i < |paths| => matrix[paths[i]])
  }

  lemma {:induction false} ProductWidth<T>(values: seq<seq<T>>)
    ensures forall k :: 0 <= k < |Product(values)| ==> |Product(values)[k]| == |values|
  {
    forall k | 0 <= k < |Product(values)| ensures |Product(values)[k]| == |values| {
      var digits := ProductOnto(values, k);
      ProductAt(values, digits);
    }
  }

  function Outcomes<C>(base: Fields, paths: seq<string>, combinations: seq<seq<Json>>, validate: Fields -> Option<C>)
    : (outcomes: seq<Outcome<C>>)
    requires forall k :: 0 <= k < |combinations| ==> |combinations[k]| == |paths|
  {
    seq(|combinations|, k requires 0 <= k < |combinations| => Expanded(base, paths, combinations[k], validate))
  }

  /** Each planned experiment is one of the first `n` outcomes; `at` says which. */
  ghost predicate Chosen<C>(outcomes: seq<Outcome<C>>, n: nat, identity: C -> string, parentHash: string,
                            planned: seq<Planned<C>>, at: seq<nat>)
    requires n <= |outcomes|
  {
    |at| == |planned|
    && forall j :: 0 <= j < |at| ==>
         at[j] < n && outcomes[at[j]].Ok?
         && planned[j] == Planned(outcomes[at[j]].value, identity(outcomes[at[j]].value), parentHash)
  }

  ghost predicate Increasing(at: seq<nat>) {
    forall i, j :: 0 <= i < j < |at| ==> at[i] < at[j]
  }

  ghost predicate DistinctHashes<C>(planned: seq<Planned<C>>) {
    forall i, j :: 0 <= i < j < |planned| ==> planned[i].configHash != planned[j].configHash
  }

  /** Outcome `k` has the identity of a planned experiment that came no later. */
  ghost predicate Represented<C>(hash: string, planned: seq<Planned<C>>, at: seq<nat>, k: nat)
    requires |at| == |planned|
  {
    exists j :: 0 <= j < |planned| && at[j] <= k && planned[j].configHash == hash
  }

  /** The planned experiments are the first of each identity among the first `n` outcomes, in order. */
  ghost predicate FirstOfEach<C>(outcomes: seq<Outcome<C>>, n: nat, identity: C -> string, parentHash: string,
                                 planned: seq<Planned<C>>, at: seq<nat>)
    requires n <= |outcomes|
  {
    && Chosen(outcomes, n, identity, parentHash, planned, at)
    && Increasing(at)
    && DistinctHashes(planned)
    && (forall k :: 0 <= k < n ==> outcomes[k].Ok? && Represented(identity(outcomes[k].value), planned, at, k))
  }

  /** Either the error of the first combination that raises, or the first of each identity. */
  ghost predicate PlanOf<C>(outcomes: seq<Outcome<C>>, identity: C -> string, parentHash: string,
                            plan: Result<seq<Planned<C>>, MatrixError>) {
    match plan
    case Err(error) =>
      exists k :: 0 <= k < |outcomes| && outcomes[k] == Err(error) && forall j :: 0 <= j < k ==> outcomes[j].Ok?
    case Ok(planned) =>
      exists at :: FirstOfEach(outcomes, |outcomes|, identity, parentHash, planned, at)
  }

  /** `_set_matrix_path` once per path, in path order. */
  method ApplyCombination(base: Fields, paths: seq<string>, combination: seq<Json>)
    returns (r: Result<Fields, MatrixError>)
    requires |paths| == |combination|
    ensures r == SetAll(base, Zip(paths, combination))
  {
    ghost var todo := Zip(paths, combination);
    r := Ok(base);
    for i := 0 to |paths|
      invariant r.Ok? && SetAll(base, todo[..i]) == r
    {
      assert todo[..i + 1][..i] == todo[..i];
      r := SetPath(r.value, [], Split(paths[i], '.'), combination[i]);
      if r.Err? {
        ErrorStays(base, todo, i + 1);
        return;
      }
    }
    assert todo[..|paths|] == todo;
  }

  lemma {:induction false} ErrorStays(base: Fields, todo: seq<Assignment>, i: nat)
    requires i <= |todo| && SetAll(base, todo[..i]).Err?
    ensures SetAll(base, todo) == SetAll(base, todo[..i])
    decreases |todo|
  {
    if i == |todo| {
      assert todo[..i] == todo;
    } else {
      assert todo[..|todo| - 1][..i] == todo[..i];
      ErrorStays(base, todo[..|todo| - 1], i);
    }
  }

  method ExpandMatrix<C(!new)>(
    matrix: map<string, seq<Json>>, base: Fields, withoutMatrix: C, parentHash: string,
    validate: Fields -> Option<C>, identity: C -> string)
    returns (plan: Result<seq<Planned<C>>, MatrixError>)
    ensures matrix == map[] ==> plan == Ok([Planned(withoutMatrix, identity(withoutMatrix), parentHash)])
    ensures matrix != map[] ==> Expands(matrix, base, parentHash, validate, identity, plan)
  {
    if matrix == map[] {
      return Ok([Planned(withoutMatrix, identity(withoutMatrix), parentHash)]);
    }
    var paths := SortedPaths(matrix.Keys);
    var combinations := Product(Values(matrix, paths));
    ProductWidth(Values(matrix, paths));
    plan := PlanCombinations(base, paths, combinations, parentHash, validate, identity);
    forall other | Listing(other, matrix.Keys) ensures other == paths {
      ListingUnique(other, paths, matrix.Keys);
    }
  }

  /** The loop over the product. */
  method PlanCombinations<C>(
    base: Fields, paths: seq<string>, combinations: seq<seq<Json>>, parentHash: string,
    validate: Fields -> Option<C>, identity: C -> string)
    returns (plan: Result<seq<Planned<C>>, MatrixError>)
    requires forall k :: 0 <= k < |combinations| ==> |combinations[k]| == |paths|
    ensures PlanOf(Outcomes(base, paths, combinations, validate), identity, parentHash, plan)
  {
    ghost var outcomes := Outcomes(base, paths, combinations, validate);
    var planned: seq<Planned<C>> := [];
    var seen: set<string> := {};
    ghost var at: seq<nat> := [];
    for k := 0 to |combinations|
      invariant FirstOfEach(outcomes, k, identity, parentHash, planned, at)
      invariant forall hash :: hash in seen <==> exists j :: 0 <= j < |planned| && planned[j].configHash == hash
    {
      var payload := ApplyCombination(base, paths, combinations[k]);
      if payload.Err? {
        assert outcomes[k] == Err(payload.error);
        return Err(payload.error);
      }
      var config := validate(payload.value);
      if config.None? {
        assert outcomes[k] == Err(InvalidConfiguration);
        return Err(InvalidConfiguration);
      }
      assert outcomes[k] == Ok(config.value);
      var hash := identity(config.value);
      if hash !in seen {
        FirstOfEachGrows(outcomes, k, identity, parentHash, planned, at);
        seen := Noted(planned, seen, Planned(config.value, hash, parentHash));
        planned := planned + [Planned(config.value, hash, parentHash)];
        at := at + [k];
      } else {
        FirstOfEachStays(outcomes, k, identity, parentHash, planned, at);
      }
    }
    return Ok(planned);
  }

  /** `seen_hashes.add`. */
  function Noted<C>(planned: seq<Planned<C>>, seen: set<string>, next: Planned<C>): (noted: set<string>)
    requires forall hash :: hash in seen <==> exists j :: 0 <= j < |planned| && planned[j].configHash == hash
    ensures forall hash :: hash in noted <==>
              exists j :: 0 <= j < |planned + [next]| && (planned + [next])[j].configHash == hash
  {
    var more := planned + [next];
    assert more[|planned|] == next;
    assert forall j :: 0 <= j < |planned| ==> more[j] == planned[j];
    assert forall hash :: hash in seen ==> exists j :: 0 <= j < |more| && more[j].configHash == hash by {
      forall hash | hash in seen ensures exists j :: 0 <= j < |more| && more[j].configHash == hash {
        var j :| 0 <= j < |planned| && planned[j].configHash == hash;
        assert more[j].configHash == hash;
      }
    }
    seen + {next.configHash}
  }

  ghost predicate Expands<C(!new)>(
    matrix: map<string, seq<Json>>, base: Fields, parentHash: string,
    validate: Fields -> Option<C>, identity: C -> string, plan: Result<seq<Planned<C>>, MatrixError>)
  {
    forall paths :: Listing(paths, matrix.Keys) ==>
                      var combinations := Product(Values(matrix, paths));
                      && (forall k :: 0 <= k < |combinations| ==> |combinations[k]| == |paths|)
                      && PlanOf(Outcomes(base, paths, combinations, validate), identity, parentHash, plan)
  }

  lemma FirstOfEachGrows<C>(outcomes: seq<Outcome<C>>, k: nat, identity: C -> string, parentHash: string,
                            planned: seq<Planned<C>>, at: seq<nat>)
    requires k < |outcomes| && outcomes[k].Ok? && FirstOfEach(outcomes, k, identity, parentHash, planned, at)
    requires forall j :: 0 <= j < |planned| ==> planned[j].configHash != identity(outcomes[k].value)
    ensures FirstOfEach(outcomes, k + 1, identity, parentHash,
                        planned + [Planned(outcomes[k].value, identity(outcomes[k].value), parentHash)], at + [k])
  {
    var next := Planned(outcomes[k].value, identity(outcomes[k].value), parentHash);
    IncreasingGrows(at, k);
    DistinctGrows(planned, next);
    ChosenGrows(outcomes, k, identity, parentHash, planned, at);
    forall i | 0 <= i < k + 1
      ensures outcomes[i].Ok? && Represented(identity(outcomes[i].value), planned + [next], at + [k], i)
    {
      StillRepresented(outcomes, k, i, identity, parentHash, planned, at, next);
    }
  }

  lemma IncreasingGrows(at: seq<nat>, k: nat)
    requires Increasing(at) && forall j :: 0 <= j < |at| ==> at[j] < k
    ensures Increasing(at + [k])
  {
  }

  lemma DistinctGrows<C>(planned: seq<Planned<C>>, next: Planned<C>)
    requires DistinctHashes(planned) && forall j :: 0 <= j < |planned| ==> planned[j].configHash != next.configHash
    ensures DistinctHashes(planned + [next])
  {
  }

  lemma ChosenGrows<C>(outcomes: seq<Outcome<C>>, k: nat, identity: C -> string, parentHash: string,
                       planned: seq<Planned<C>>, at: seq<nat>)
    requires k < |outcomes| && outcomes[k].Ok? && Chosen(outcomes, k, identity, parentHash, planned, at)
    ensures Chosen(outcomes, k + 1, identity, parentHash,
                   planned + [Planned(outcomes[k].value, identity(outcomes[k].value), parentHash)], at + [k])
  {
  }

  lemma StillRepresented<C>(outcomes: seq<Outcome<C>>, k: nat, i: nat, identity: C -> string, parentHash: string,
                            planned: seq<Planned<C>>, at: seq<nat>, next: Planned<C>)
    requires i <= k < |outcomes| && outcomes[k].Ok? && FirstOfEach(outcomes, k, identity, parentHash, planned, at)
    requires next.configHash == identity(outcomes[k].value)
    ensures outcomes[i].Ok? && Represented(identity(outcomes[i].value), planned + [next], at + [k], i)
  {
    var more, places := planned + [next], at + [k];
    if i < k {
      var hash := identity(outcomes[i].value);
      assert Represented(hash, planned, at, i);
      var j :| 0 <= j < |planned| && at[j] <= i && planned[j].configHash == hash;
      assert more[j] == planned[j] && places[j] == at[j];
    } else {
      assert more[|planned|] == next && places[|planned|] == k;
    }
  }

  lemma FirstOfEachStays<C>(outcomes: seq<Outcome<C>>, k: nat, identity: C -> string, parentHash: string,
                            planned: seq<Planned<C>>, at: seq<nat>)
    requires k < |outcomes| && outcomes[k].Ok? && FirstOfEach(outcomes, k, identity, parentHash, planned, at)
    requires exists j :: 0 <= j < |planned| && planned[j].configHash == identity(outcomes[k].value)
    ensures FirstOfEach(outcomes, k + 1, identity, parentHash, planned, at)
  {
    var j :| 0 <= j < |planned| && planned[j].configHash == identity(outcomes[k].value);
    assert at[j] < k;
    assert Represented(identity(outcomes[k].value), planned, at, k);
  }

  // ----- what a plan holds -----

  lemma {:induction false} IncreasingAtLeast(at: seq<nat>, j: nat)
    requires Increasing(at) && j < |at|
    ensures j <= at[j]
  {
    if j > 0 {
      IncreasingAtLeast(at, j - 1);
      assert at[j - 1] < at[j];
    }
  }

  lemma PlannedIsFirst<C>(outcomes: seq<Outcome<C>>, identity: C -> string, parentHash: string,
                          planned: seq<Planned<C>>, at: seq<nat>, mine: nat, i: nat)
    requires FirstOfEach(outcomes, |outcomes|, identity, parentHash, planned, at) && mine < |at| && i < at[mine]
    ensures identity(outcomes[i].value) != planned[mine].configHash
  {
    var hash := identity(outcomes[i].value);
    assert Represented(hash, planned, at, i);
    var other :| 0 <= other < |planned| && at[other] <= i && planned[other].configHash == hash;
    assert other < mine || mine < other;
  }

  /** A combination is planned exactly when no earlier one has its identity. */
  lemma PlannedExactly<C>(outcomes: seq<Outcome<C>>, identity: C -> string, parentHash: string,
                          planned: seq<Planned<C>>, at: seq<nat>, k: nat)
    requires FirstOfEach(outcomes, |outcomes|, identity, parentHash, planned, at) && k < |outcomes|
    ensures k in at <==>
            forall i :: 0 <= i < k ==> identity(outcomes[i].value) != identity(outcomes[k].value)
  {
    if k in at {
      var mine :| 0 <= mine < |at| && at[mine] == k;
      forall i | 0 <= i < k ensures identity(outcomes[i].value) != identity(outcomes[k].value) {
        PlannedIsFirst(outcomes, identity, parentHash, planned, at, mine, i);
      }
    } else {
      assert Represented(identity(outcomes[k].value), planned, at, k);
      var j :| 0 <= j < |planned| && at[j] <= k && planned[j].configHash == identity(outcomes[k].value);
      assert at[j] < k && identity(outcomes[at[j]].value) == identity(outcomes[k].value);
    }
  }

  /** A finished plan has the identity of every outcome and is no longer than the outcomes. */
  lemma PlanCovers<C>(outcomes: seq<Outcome<C>>, identity: C -> string, parentHash: string,
                      planned: seq<Planned<C>>, k: nat)
    requires PlanOf(outcomes, identity, parentHash, Ok(planned)) && k < |outcomes|
    ensures outcomes[k].Ok?
    ensures exists j :: 0 <= j < |planned| && planned[j].configHash == identity(outcomes[k].value)
    ensures |planned| <= |outcomes|
  {
    var at :| FirstOfEach(outcomes, |outcomes|, identity, parentHash, planned, at);
    if at != [] {
      IncreasingAtLeast(at, |at| - 1);
    }
    assert Represented(identity(outcomes[k].value), planned, at, k);
  }

  /** Every choice of one value per path has its identity in a finished plan, which is no longer than the number of
      choices. */
  lemma EveryChoiceIsPlanned<C>(
    base: Fields, paths: seq<string>, values: seq<seq<Json>>, digits: seq<nat>, validate: Fields -> Option<C>,
    identity: C -> string, parentHash: string, planned: seq<Planned<C>>)
    requires |values| == |paths| && Choice(values, digits)
    requires forall k :: 0 <= k < |Product(values)| ==> |Product(values)[k]| == |paths|
    requires PlanOf(Outcomes(base, paths, Product(values), validate), identity, parentHash, Ok(planned))
    ensures var outcome := Expanded(base, paths, Pick(values, digits), validate);
            outcome.Ok? && exists j :: 0 <= j < |planned| && planned[j].configHash == identity(outcome.value)
    ensures |planned| <= Size(values)
  {
    ProductAt(values, digits);
    PlanCovers(Outcomes(base, paths, Product(values), validate), identity, parentHash, planned, Rank(values, digits));
  }

  ghost predicate PathsApart(paths: seq<string>) {
    forall i, j :: 0 <= i < j < |paths| ==> Apart(Split(paths[i], '.'), Split(paths[j], '.'))
  }

  /** For prefix-free paths only the base decides whether a payload can be built; when it can, it reads back every
      chosen value, equals the base elsewhere, and does not depend on the order of the paths. */
  lemma PayloadOfChoice(base: Fields, paths: seq<string>, combination: seq<Json>, reordered: seq<Assignment>)
    requires PathsApart(paths) && |paths| == |combination|
    requires multiset(reordered) == multiset(Zip(paths, combination))
    ensures var payload := SetAll(base, Zip(paths, combination));
            && (payload.Ok? <==> forall i :: 0 <= i < |paths| ==> Settable(base, [], Split(paths[i], '.')))
            && (payload.Ok? ==>
                  && SetAll(base, reordered) == payload
                  && (forall i :: 0 <= i < |paths| ==>
                        Lookup(payload.value, Split(paths[i], '.')) == Some(combination[i]))
                  && (forall q :: (forall i :: 0 <= i < |paths| ==> Apart(Split(paths[i], '.'), q)) ==>
                        Lookup(payload.value, q) == Lookup(base, q)))
  {
    var todo := Zip(paths, combination);
    assert forall i :: 0 <= i < |paths| ==> todo[i] == (Split(paths[i], '.'), combination[i]);
    SetAllExactly(base, todo);
    if SetAll(base, todo).Ok? {
      OrderDoesNotMatter(base, todo, reordered);
      PayloadReadsBack(base, todo);
      forall q | forall i :: 0 <= i < |paths| ==> Apart(Split(paths[i], '.'), q)
        ensures Lookup(SetAll(base, todo).value, q) == Lookup(base, q)
      {
        assert forall i :: 0 <= i < |todo| ==> Apart(todo[i].0, q);
      }
    }
  }
}
