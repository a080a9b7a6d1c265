/** Reading table definitions and finding which tables must be refreshed
    (airflow/dags/polygonetl_airflow/parse/table_definition_reader.py). */
module TableStates {
  import opened Common
  import opened TopologicalSort

  /** A definition file: the table's name, the hash of the content, the tables it refers to. */
  datatype Definition = Definition(name: Name, hash: string, refs: seq<Name>)

  datatype ReadError = DuplicateName | MissingRef

  ghost predicate UniqueNames(defs: seq<Definition>) {
    forall i, j :: 0 <= i < j < |defs| ==> defs[i].name != defs[j].name
  }

  predicate Names(defs: seq<Definition>, x: Name) {
    exists i :: 0 <= i < |defs| && defs[i].name == x
  }

  ghost predicate RefsResolve(defs: seq<Definition>) {
    forall i, x :: 0 <= i < |defs| && x in defs[i].refs ==> Names(defs, x)
  }

  /** What the dictionary by name holds. */
  ghost predicate Indexes(byName: map<Name, Definition>, defs: seq<Definition>) {
    && (forall x :: x in byName <==> Names(defs, x))
    && (forall i :: 0 <= i < |defs| ==> defs[i].name in byName && byName[defs[i].name] == defs[i])
  }

  method ReadTableDefinitions(files: seq<Definition>) returns (r: Result<seq<Definition>, ReadError>)
    ensures r == if !UniqueNames(files) then Failure(DuplicateName)
                 else if !RefsResolve(files) then Failure(MissingRef) else Success(files)
  {
    var byName: map<Name, Definition> := map[];
    for i := 0 to |files|
      invariant UniqueNames(files[..i]) && Indexes(byName, files[..i])
    {
      if files[i].name in byName {
        assert Names(files[..i], files[i].name);
        return Failure(DuplicateName);
      }
      IndexOneMore(byName, files, i);
      byName := byName[files[i].name := files[i]];
    }
    assert files[..|files|] == files;
    for i := 0 to |files|
      invariant forall j, x :: 0 <= j < i && x in files[j].refs ==> Names(files, x)
    {
      for k := 0 to |files[i].refs|
        invariant forall m :: 0 <= m < k ==> Names(files, files[i].refs[m])
      {
        if files[i].refs[k] !in byName {
          assert files[i].refs[k] in files[i].refs;
          return Failure(MissingRef);
        }
      }
    }
    return Success(files);
  }

  lemma IndexOneMore(byName: map<Name, Definition>, defs: seq<Definition>, i: nat)
    requires i < |defs| && Indexes(byName, defs[..i]) && UniqueNames(defs[..i]) && defs[i].name !in byName
    ensures Indexes(byName[defs[i].name := defs[i]], defs[..i + 1]) && UniqueNames(defs[..i + 1])
  {
    var longer := defs[..i + 1];
    forall j | 0 <= j < i ensures longer[j].name in byName && byName[longer[j].name] == longer[j] {
      assert defs[..i][j] == longer[j];
    }
    NamesOneMore(defs, i);
    UniqueOneMore(defs, i);
  }

  lemma UniqueOneMore(defs: seq<Definition>, i: nat)
    requires i < |defs| && UniqueNames(defs[..i]) && !Names(defs[..i], defs[i].name)
    ensures UniqueNames(defs[..i + 1])
  {
    var longer := defs[..i + 1];
    forall j, k | 0 <= j < k < |longer| ensures longer[j].name != longer[k].name {
      assert defs[..i][j] == longer[j];
      assert k < i ==> defs[..i][k] == longer[k];
    }
  }

  lemma NamesOneMore(defs: seq<Definition>, i: nat)
    requires i < |defs|
    ensures forall x :: Names(defs[..i + 1], x) <==> Names(defs[..i], x) || x == defs[i].name
  {
    var longer := defs[..i + 1];
    forall x ensures Names(longer, x) <==> Names(defs[..i], x) || x == defs[i].name {
      if x == defs[i].name {
        assert longer[i].name == x;
      } else if Names(defs[..i], x) {
        var j :| 0 <= j < i && defs[..i][j].name == x;
        assert longer[j].name == x;
      }
    }
  }

  ghost predicate WellFormed(defs: seq<Definition>) { UniqueNames(defs) && RefsResolve(defs) }

  function IndexOf(defs: seq<Definition>): map<Name, Definition> {
    if defs == [] then map[]
    else IndexOf(defs[..|defs| - 1])[defs[|defs| - 1].name := defs[|defs| - 1]]
  }

  lemma {:induction false} IndexOfIndexes(defs: seq<Definition>)
    requires UniqueNames(defs)
    ensures Indexes(IndexOf(defs), defs)
  {
    if defs != [] {
      var n := |defs| - 1;
      IndexOfIndexes(defs[..n]);
      assert !Names(defs[..n], defs[n].name);
      IndexOneMore(IndexOf(defs[..n]), defs, n);
      assert defs[..n + 1] == defs;
    }
  }

  /** Table names to the names of the tables they refer to. */
  function GraphOf(defs: seq<Definition>): Graph {
    var byName := IndexOf(defs);
    map x | x in byName :: set d | d in byName[x].refs
  }

  lemma GraphItems(defs: seq<Definition>)
    requires WellFormed(defs)
    ensures Items(GraphOf(defs)) == IndexOf(defs).Keys
  {
    IndexOfIndexes(defs);
    var g := GraphOf(defs);
    forall x, d | x in g && d in g[x] ensures d in g {
      var i :| 0 <= i < |defs| && defs[i].name == x;
      assert d in defs[i].refs;
    }
  }

  method SortTopologically(defs: seq<Definition>) returns (r: Result<seq<Definition>, Graph>)
    requires WellFormed(defs)
    ensures r.Success? <==> !exists x :: x in Items(GraphOf(defs)) && OnCycle(GraphOf(defs), x)
    ensures r.Success? ==> Sorted(defs, r.value)
    ensures r.Failure? ==> forall x :: x in r.error <==>
              x in Items(GraphOf(defs)) && DependsOnCycle(GraphOf(defs), x)
  {
    var byName := IndexOf(defs);
    IndexOfIndexes(defs);
    GraphItems(defs);
    var names, _ := ToposortFlatten(GraphOf(defs), true);
    if names.Failure? {
      return Failure(names.error);
    }
    var sorted := seq(|names.value|, i requires 0 <= i < |names.value| => byName[names.value[i]]);
    NamesInOrderAreSorted(defs, names.value);
    return Success(sorted);
  }

  lemma NamesInOrderAreSorted(defs: seq<Definition>, names: seq<Name>)
    requires WellFormed(defs) && InOrder(GraphOf(defs), names)
    requires forall x :: x in names ==> x in IndexOf(defs)
    requires forall x :: x in IndexOf(defs) ==> x in names
    ensures Sorted(defs, seq(|names|, i requires 0 <= i < |names| => IndexOf(defs)[names[i]]))
  {
    NamesOfSorted(defs, names);
  }

  lemma NamesOfSorted(defs: seq<Definition>, names: seq<Name>)
    requires WellFormed(defs) && forall x :: x in names ==> x in IndexOf(defs)
    ensures NamesOf(seq(|names|, i requires 0 <= i < |names| => IndexOf(defs)[names[i]])) == names
    ensures forall i :: 0 <= i < |names| ==> IndexOf(defs)[names[i]].name == names[i]
  {
    IndexOfIndexes(defs);
    forall i | 0 <= i < |names| ensures IndexOf(defs)[names[i]].name == names[i] {
      assert Names(defs, names[i]);
    }
  }

  function NamesOf(defs: seq<Definition>): seq<Name> {
    seq(|defs|, i requires 0 <= i < |defs| => defs[i].name)
  }

  /** The same definitions, each after the ones it refers to. */
  ghost predicate Sorted(defs: seq<Definition>, sorted: seq<Definition>) {
    && InOrder(GraphOf(defs), NamesOf(sorted))
    && (forall x :: x in NamesOf(sorted) <==> x in IndexOf(defs))
    && (forall i :: 0 <= i < |sorted| ==> sorted[i].name in IndexOf(defs) && IndexOf(defs)[sorted[i].name] == sorted[i])
  }

  /* ---- Which tables are updated ---- */

  function StoredHash(state: map<string, string>, x: Name): string {
    if x in state then state[x] else ""
  }

  predicate Changed(defs: seq<Definition>, state: map<string, string>, x: Name) {
    x in IndexOf(defs) && StoredHash(state, x) != IndexOf(defs)[x].hash
  }

  /** A table that was never stored has changed, unless its hash is empty. */
  lemma NewTableIsChanged(defs: seq<Definition>, state: map<string, string>, x: Name)
    requires x in IndexOf(defs) && x !in state
    ensures Changed(defs, state, x) <==> IndexOf(defs)[x].hash != ""
  {
  }

  /** The hash of x, or of some table it depends on, directly or not, changed. */
  ghost predicate Dirty(defs: seq<Definition>, state: map<string, string>, x: Name) {
    exists y :: Reaches(GraphOf(defs), x, y) && Changed(defs, state, y)
  }

  lemma DirtyStep(defs: seq<Definition>, state: map<string, string>, x: Name)
    ensures Dirty(defs, state, x) <==>
      Changed(defs, state, x) || exists d :: d in Deps(GraphOf(defs), x) && Dirty(defs, state, d)
  {
    var g := GraphOf(defs);
    ReachesItself(g, x);
    if d :| d in Deps(g, x) && Dirty(defs, state, d) {
      var y :| Reaches(g, d, y) && Changed(defs, state, y);
      ReachesThroughDep(g, x, d, y);
    }
    if Dirty(defs, state, x) && !Changed(defs, state, x) {
      var y :| Reaches(g, x, y) && Changed(defs, state, y);
      var d := ReachesByDep(g, x, y);
    }
  }

  lemma ReachesItself(g: Graph, x: Name)
    ensures Reaches(g, x, x)
  {
    assert IsPath(g, [x]);
  }

  lemma ReachesThroughDep(g: Graph, x: Name, d: Name, y: Name)
    requires d in Deps(g, x) && Reaches(g, d, y)
    ensures Reaches(g, x, y)
  {
    var p :| IsPath(g, p) && p[0] == d && p[|p| - 1] == y;
    var q := [x] + p;
    assert IsPath(g, q) && q[0] == x && q[|q| - 1] == y;
  }

  lemma ReachesByDep(g: Graph, x: Name, y: Name) returns (d: Name)
    requires Reaches(g, x, y) && x != y
    ensures d in Deps(g, x) && Reaches(g, d, y)
  {
    var p :| IsPath(g, p) && p[0] == x && p[|p| - 1] == y;
    assert p[0 + 1] in Deps(g, p[0]);
    d := p[1];
    PartOfPath(g, p, 1, |p| - 1);
    var q := p[1..|p| - 1 + 1];
    assert q[0] == d && q[|q| - 1] == y;
  }

  datatype TableState = TableState(definition: Definition, updated: bool)

  datatype StateError = Circular(stuck: Graph) | AssertionFailed

  predicate RefersToItself(d: Definition) { d.name in d.refs }

  /** The flags of the definitions before position i. */
  ghost predicate FlagsOk(defs: seq<Definition>, state: map<string, string>, names: seq<Name>, flags: map<Name, bool>) {
    && (forall x :: x in flags <==> x in names)
    && (forall x :: x in flags ==> (flags[x] <==> Dirty(defs, state, x)))
  }

  /** One turn of the loop. None is the failed assertion. */
  method FlagNext(defs: seq<Definition>, state: map<string, string>, ghost before: seq<Name>,
                  d: Definition, flags: map<Name, bool>) returns (r: Option<bool>)
    requires d.name in IndexOf(defs) && IndexOf(defs)[d.name] == d
    requires FlagsOk(defs, state, before, flags) && d.name !in before
    requires forall x :: x in Deps(GraphOf(defs), d.name) ==> x in before
    ensures r.None? <==> RefersToItself(d)
    ensures r.Some? ==> (r.value <==> Dirty(defs, state, d.name))
  {
    ghost var g := GraphOf(defs);
    assert forall x :: x in d.refs && x != d.name ==> x in Deps(g, d.name);
    var previousHash := StoredHash(state, d.name);
    var isUpdated := previousHash != d.hash;
    if exists k :: 0 <= k < |d.refs| && d.refs[k] !in flags {
      return None;
    }
    var isDependenciesUpdated := exists k :: 0 <= k < |d.refs| && flags[d.refs[k]];
    DirtyStep(defs, state, d.name);
    if k :| 0 <= k < |d.refs| && flags[d.refs[k]] {
      assert d.refs[k] in Deps(g, d.name);
    }
    return Some(isUpdated || isDependenciesUpdated);
  }

  /** One pass over the sorted definitions. The flag of a table is set exactly if it is dirty. The
      assertion about dependencies fails exactly if some definition refers to itself: the sort
      ignores such references, the assertion does not. */
  method ToposortAndReadStates(defs: seq<Definition>, state: map<string, string>)
    returns (r: Result<seq<TableState>, StateError>)
    requires WellFormed(defs)
    ensures r.Failure? && r.error.Circular? <==>
              exists x :: x in Items(GraphOf(defs)) && OnCycle(GraphOf(defs), x)
    ensures r.Failure? && r.error.AssertionFailed? <==>
              (exists d :: d in defs && RefersToItself(d))
              && !exists x :: x in Items(GraphOf(defs)) && OnCycle(GraphOf(defs), x)
    ensures r.Failure? && r.error.Circular? ==> forall x :: x in r.error.stuck <==>
              x in Items(GraphOf(defs)) && DependsOnCycle(GraphOf(defs), x)
    ensures r.Success? ==> StatesOf(defs, state, r.value)
  {
    var sortResult := SortTopologically(defs);
    if sortResult.Failure? {
      return Failure(Circular(sortResult.error));
    }
    var sorted := sortResult.value;
    var states := FlagAll(defs, state, sorted);
    if states.None? {
      var d :| d in sorted && RefersToItself(d);
      SortedMember(defs, sorted, d);
      return Failure(AssertionFailed);
    }
    forall d | d in defs ensures !RefersToItself(d) {
      DefinitionIsSorted(defs, sorted, d);
    }
    return Success(states.value);
  }

  /** The loop over the sorted definitions. */
  method FlagAll(defs: seq<Definition>, state: map<string, string>, sorted: seq<Definition>)
    returns (r: Option<seq<TableState>>)
    requires Sorted(defs, sorted)
    ensures r.None? <==> exists d :: d in sorted && RefersToItself(d)
    ensures r.Some? ==> StatesOf(defs, state, r.value)
  {
    ghost var names := NamesOf(sorted);
    var flags: map<Name, bool> := map[];
    for i := 0 to |sorted|
      invariant FlagsOk(defs, state, names[..i], flags)
      invariant forall j :: 0 <= j < i ==> !RefersToItself(sorted[j])
    {
      NextInOrder(defs, sorted, i);
      var flag := FlagNext(defs, state, names[..i], sorted[i], flags);
      if flag.None? {
        assert sorted[i] in sorted;
        return None;
      }
      FlagsOneMore(defs, state, names[..i], flags, sorted[i].name, flag.value);
      flags := flags[sorted[i].name := flag.value];
    }
    assert names[..|sorted|] == names;
    AllFlagsAreThere(defs, state, sorted, flags);
    return Some(seq(|sorted|, j requires 0 <= j < |sorted| => TableState(sorted[j], flags[sorted[j].name])));
  }

  lemma FlagsOneMore(defs: seq<Definition>, state: map<string, string>, names: seq<Name>, flags: map<Name, bool>,
                     x: Name, flag: bool)
    requires FlagsOk(defs, state, names, flags) && (flag <==> Dirty(defs, state, x))
    ensures FlagsOk(defs, state, names + [x], flags[x := flag])
  {
  }

  /** What comes next depends only on what came before, and is none of it. */
  lemma NextInOrder(defs: seq<Definition>, sorted: seq<Definition>, i: nat)
    requires Sorted(defs, sorted) && i < |sorted|
    ensures NamesOf(sorted)[..i + 1] == NamesOf(sorted)[..i] + [sorted[i].name]
    ensures sorted[i].name in IndexOf(defs) && IndexOf(defs)[sorted[i].name] == sorted[i]
    ensures sorted[i].name !in NamesOf(sorted)[..i]
    ensures forall x :: x in Deps(GraphOf(defs), sorted[i].name) ==> x in NamesOf(sorted)[..i]
  {
    assert NamesOf(sorted)[i] == sorted[i].name;
  }

  lemma AllFlagsAreThere(defs: seq<Definition>, state: map<string, string>, sorted: seq<Definition>,
                         flags: map<Name, bool>)
    requires Sorted(defs, sorted) && FlagsOk(defs, state, NamesOf(sorted), flags)
    ensures forall j :: 0 <= j < |sorted| ==> sorted[j].name in flags
    ensures StatesOf(defs, state,
              seq(|sorted|, j requires 0 <= j < |sorted| => TableState(sorted[j], flags[sorted[j].name])))
  {
    forall j | 0 <= j < |sorted| ensures sorted[j].name in flags {
      assert NamesOf(sorted)[j] in NamesOf(sorted);
    }
    var states := seq(|sorted|, j requires 0 <= j < |sorted| => TableState(sorted[j], flags[sorted[j].name]));
    assert DefinitionsOf(states) == sorted;
  }

  function DefinitionsOf(states: seq<TableState>): seq<Definition> {
    seq(|states|, i requires 0 <= i < |states| => states[i].definition)
  }

  /** The states of all definitions, in dependency order, flagged by whether they are dirty. */
  ghost predicate StatesOf(defs: seq<Definition>, state: map<string, string>, states: seq<TableState>) {
    && Sorted(defs, DefinitionsOf(states))
    && forall i :: 0 <= i < |states| ==>
         (states[i].updated <==> Dirty(defs, state, states[i].definition.name))
  }

  lemma SortedMember(defs: seq<Definition>, sorted: seq<Definition>, d: Definition)
    requires WellFormed(defs) && Sorted(defs, sorted) && d in sorted
    ensures d in defs
  {
    IndexOfIndexes(defs);
    var i :| 0 <= i < |defs| && defs[i].name == d.name;
    assert IndexOf(defs)[defs[i].name] == defs[i];
  }

  lemma DefinitionIsSorted(defs: seq<Definition>, sorted: seq<Definition>, d: Definition)
    requires WellFormed(defs) && Sorted(defs, sorted) && d in defs
    ensures d in sorted
  {
    IndexOfIndexes(defs);
    var i :| 0 <= i < |defs| && defs[i] == d;
    assert Names(defs, d.name);
    var j :| 0 <= j < |NamesOf(sorted)| && NamesOf(sorted)[j] == d.name;
    assert IndexOf(defs)[sorted[j].name] == sorted[j];
  }
}
