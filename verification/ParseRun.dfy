/** One run over a dataset folder: process the tables, then commit hashes and day
    (airflow/dags/polygonetl_airflow/parse/parse_dataset_folder_logic.py). */
module ParseRun {
  import opened Common
  import opened TopologicalSort
  import opened TableStates
  import opened ParseState

  const MAX_UPDATED := 50

  datatype RunError =
    | DsMissing(ds: DsError)
    | Unreadable(read: ReadError)
    | NoStates(states: StateError)
    | TooManyUpdated
    | ProcessFailed(table: Name)
    | NotPersisted(persist: PersistError)

  /** Processed in order: each table comes after those of its dependencies that are processed at
      all; in a run over updated tables only, the others need no refresh. */
  ghost predicate ProcessedInOrder(defs: seq<Definition>, state: State, onlyUpdated: bool, processed: seq<Name>) {
    && (forall i, j :: 0 <= i < j < |processed| ==> processed[i] != processed[j])
    && forall i :: 0 <= i < |processed| ==>
         DepsDone(defs, state, onlyUpdated, processed[i], processed[..i])
  }

  ghost predicate DepsDone(defs: seq<Definition>, state: State, onlyUpdated: bool, x: Name, before: seq<Name>) {
    forall d :: d in Deps(GraphOf(defs), x) ==> d in before || (onlyUpdated && !Dirty(defs, state, d))
  }

  /** What processing is for: with `onlyUpdated` the dirty tables, otherwise all. */
  ghost predicate ToProcess(defs: seq<Definition>, state: State, onlyUpdated: bool, x: Name) {
    x in IndexOf(defs) && (onlyUpdated ==> Dirty(defs, state, x))
  }

  /** Every table's hash is the stored one. */
  ghost predicate UpToDate(defs: seq<Definition>, state: State) {
    forall x :: x in IndexOf(defs) ==> StoredHash(state, x) == IndexOf(defs)[x].hash
  }

  /** The tables that a run must refresh: the flagged ones, in order. */
  function Updated(states: seq<TableState>): seq<Definition> {
    if states == [] then []
    else Updated(states[..|states| - 1]) +
         (if states[|states| - 1].updated then [states[|states| - 1].definition] else [])
  }

  ghost function DirtyAmong(defs: seq<Definition>, state: State, names: seq<Name>): set<Name> {
    set x | x in names && Dirty(defs, state, x)
  }

  /** The flags say which tables are dirty. */
  ghost predicate Flagged(defs: seq<Definition>, state: State, states: seq<TableState>) {
    forall i :: 0 <= i < |states| ==> (states[i].updated <==> Dirty(defs, state, states[i].definition.name))
  }

  /** As many definitions are flagged as there are dirty tables. */
  lemma {:induction false} UpdatedCountsDirty(defs: seq<Definition>, state: State, states: seq<TableState>)
    requires Flagged(defs, state, states)
    requires forall i, j :: 0 <= i < j < |states| ==> states[i].definition.name != states[j].definition.name
    ensures |Updated(states)| == |DirtyAmong(defs, state, NamesOf(DefinitionsOf(states)))|
  {
    if states != [] {
      var init, last := states[..|states| - 1], states[|states| - 1];
      var names := NamesOf(DefinitionsOf(init));
      UpdatedCountsDirty(defs, state, init);
      assert NamesOf(DefinitionsOf(states)) == names + [last.definition.name];
      forall i | 0 <= i < |names| ensures names[i] != last.definition.name {
        assert names[i] == states[i].definition.name;
      }
      DirtyAmongOneMore(defs, state, names, last.definition.name);
    }
  }

  lemma DirtyAmongOneMore(defs: seq<Definition>, state: State, names: seq<Name>, x: Name)
    requires x !in names
    ensures |DirtyAmong(defs, state, names + [x])|
         == |DirtyAmong(defs, state, names)| + (if Dirty(defs, state, x) then 1 else 0)
  {
    var before := DirtyAmong(defs, state, names);
    var after := DirtyAmong(defs, state, names + [x]);
    assert after == before + (if Dirty(defs, state, x) then {x} else {});
  }

  ghost function DirtyTables(defs: seq<Definition>, state: State): set<Name> {
    set x | x in IndexOf(defs) && Dirty(defs, state, x)
  }

  lemma AllUpdatedCountsDirty(defs: seq<Definition>, state: State, states: seq<TableState>)
    requires StatesOf(defs, state, states)
    ensures |Updated(states)| == |DirtyTables(defs, state)|
  {
    var names := NamesOf(DefinitionsOf(states));
    forall i, j | 0 <= i < j < |states| ensures states[i].definition.name != states[j].definition.name {
      assert names[i] != names[j];
    }
    UpdatedCountsDirty(defs, state, states);
    assert DirtyAmong(defs, state, names) == DirtyTables(defs, state);
  }

  /** What has been processed when the loop has passed some names. */
  ghost predicate ProcessedAre(defs: seq<Definition>, state: State, onlyUpdated: bool,
                               names: seq<Name>, processed: seq<Name>) {
    && ProcessedInOrder(defs, state, onlyUpdated, processed)
    && forall x :: x in processed <==> x in names && (onlyUpdated ==> Dirty(defs, state, x))
  }

  /** The loop that processes tables, in order, until one fails. `fails` says which would. */
  method ProcessTables(defs: seq<Definition>, ghost state: State, states: seq<TableState>,
                       onlyUpdated: bool, fails: Name -> bool)
    returns (failed: Option<Name>, processed: seq<Name>)
    requires StatesOf(defs, state, states)
    ensures ProcessedInOrder(defs, state, onlyUpdated, processed)
    ensures forall x :: x in processed ==> ToProcess(defs, state, onlyUpdated, x)
    ensures failed.None? ==> forall x :: ToProcess(defs, state, onlyUpdated, x) ==> x in processed && !fails(x)
    ensures failed.Some? ==> ToProcess(defs, state, onlyUpdated, failed.value) && fails(failed.value)
    ensures failed.Some? ==> DepsDone(defs, state, onlyUpdated, failed.value, processed)
    ensures forall x :: x in processed ==> !fails(x)
  {
    processed := [];
    ghost var names := NamesOf(DefinitionsOf(states));
    assert InOrder(GraphOf(defs), names) && forall x :: x in names <==> x in IndexOf(defs);
    for i := 0 to |states|
      invariant ProcessedAre(defs, state, onlyUpdated, names[..i], processed)
      invariant forall x :: x in processed ==> !fails(x)
    {
      var table := states[i].definition;
      assert names[i] == table.name;
      NextName(defs, state, onlyUpdated, processed, names, i);
      if onlyUpdated && !states[i].updated {
        continue;
      }
      if fails(table.name) {
        assert names[i] in names;
        ghost var longer := processed + [names[i]];
        assert longer[..|processed|] == processed && longer[|processed|] == table.name;
        return Some(table.name), processed;
      }
      processed := processed + [table.name];
    }
    assert names[..|states|] == names;
    return None, processed;
  }

  lemma NextName(defs: seq<Definition>, state: State, onlyUpdated: bool, processed: seq<Name>, names: seq<Name>, i: nat)
    requires InOrder(GraphOf(defs), names) && i < |names|
    requires ProcessedAre(defs, state, onlyUpdated, names[..i], processed)
    ensures if onlyUpdated && !Dirty(defs, state, names[i])
            then ProcessedAre(defs, state, onlyUpdated, names[..i + 1], processed)
            else ProcessedAre(defs, state, onlyUpdated, names[..i + 1], processed + [names[i]])
  {
    var longer := processed + [names[i]];
    assert names[..i + 1] == names[..i] + [names[i]];
    assert names[i] !in names[..i];
    forall k | 0 <= k < |longer| && (onlyUpdated ==> Dirty(defs, state, names[i]))
      ensures DepsDone(defs, state, onlyUpdated, longer[k], longer[..k]) {
      if k < |processed| {
        assert longer[..k] == processed[..k];
        assert DepsDone(defs, state, onlyUpdated, processed[k], processed[..k]);
      } else {
        assert longer[..k] == processed;
        assert forall d :: d in Deps(GraphOf(defs), names[i]) ==> d in names[..i];
      }
    }
  }

  /** The loop that puts the hashes of the refreshed tables into the state. */
  method CommitHashes(manager: ParseStateManager, defs: seq<Definition>, states: seq<TableState>)
    requires StatesOf(defs, manager.state, states)
    modifies manager`state
    ensures manager.state == Hashed(defs, old(manager.state))
  {
    ghost var before := manager.state;
    ghost var sorted := DefinitionsOf(states);
    for i := 0 to |states|
      invariant HashesIn(defs, before, NamesOf(sorted)[..i], manager.state)
    {
      var table := states[i].definition;
      assert sorted[i] == table;
      NextHash(defs, before, sorted, i, manager.state);
      if states[i].updated {
        manager.SetContentHash(table.name, table.hash);
      }
    }
    AllHashesIn(defs, before, sorted, manager.state);
  }

  /** The state with the hashes of the refreshed tables. */
  ghost function Hashed(defs: seq<Definition>, base: State): State {
    map x | x in base.Keys + IndexOf(defs).Keys && (x in base || Dirty(defs, base, x)) ::
      if x in IndexOf(defs) && Dirty(defs, base, x) then IndexOf(defs)[x].hash else base[x]
  }

  /** What the state holds for a name when the loop has passed some tables. */
  ghost function HashFor(defs: seq<Definition>, before: State, names: seq<Name>, x: Name): Option<string> {
    if x in names && x in IndexOf(defs) && Dirty(defs, before, x) then Some(IndexOf(defs)[x].hash)
    else Get(before, x)
  }

  ghost predicate HashesIn(defs: seq<Definition>, before: State, names: seq<Name>, state: State) {
    forall x :: Get(state, x) == HashFor(defs, before, names, x)
  }

  lemma NextHash(defs: seq<Definition>, before: State, sorted: seq<Definition>, i: nat, state: State)
    requires Sorted(defs, sorted) && i < |sorted| && HashesIn(defs, before, NamesOf(sorted)[..i], state)
    ensures var names := NamesOf(sorted)[..i + 1];
            HashesIn(defs, before, names,
                     if Dirty(defs, before, sorted[i].name) then state[sorted[i].name := sorted[i].hash] else state)
  {
    var names, dirty := NamesOf(sorted), Dirty(defs, before, sorted[i].name);
    var after := if dirty then state[sorted[i].name := sorted[i].hash] else state;
    assert names[..i + 1] == names[..i] + [names[i]];
    assert names[i] in names && names[i] in IndexOf(defs) && IndexOf(defs)[names[i]] == sorted[i];
    forall x ensures Get(after, x) == HashFor(defs, before, names[..i + 1], x) {
      assert Get(state, x) == HashFor(defs, before, names[..i], x);
      assert names[i] !in names[..i];
      assert x in names[..i + 1] <==> x in names[..i] || x == names[i];
    }
  }

  lemma AllHashesIn(defs: seq<Definition>, before: State, sorted: seq<Definition>, state: State)
    requires Sorted(defs, sorted) && HashesIn(defs, before, NamesOf(sorted)[..|sorted|], state)
    ensures state == Hashed(defs, before)
  {
    var names := NamesOf(sorted);
    assert names[..|sorted|] == names;
    forall x ensures Get(state, x) == Get(Hashed(defs, before), x) {
      assert Get(state, x) == HashFor(defs, before, names, x);
      OnlyTablesAreDirty(defs, before, x);
    }
    SameGets(state, Hashed(defs, before));
  }

  lemma OnlyTablesAreDirty(defs: seq<Definition>, state: State, x: Name)
    ensures Dirty(defs, state, x) ==> x in IndexOf(defs)
  {
    DirtyStep(defs, state, x);
  }

  lemma SameGets(a: State, b: State)
    requires forall x :: Get(a, x) == Get(b, x)
    ensures a == b
  {
    forall x ensures x in a <==> x in b {
      assert Get(a, x) == Get(b, x);
    }
    forall x | x in a ensures a[x] == b[x] {
      assert Get(a, x) == Get(b, x);
    }
  }

  /** After the loop every stored hash is the current one. */
  lemma HashedIsUpToDate(defs: seq<Definition>, base: State)
    ensures UpToDate(defs, Hashed(defs, base))
    ensures forall x :: x !in IndexOf(defs) ==> Get(Hashed(defs, base), x) == Get(base, x)
  {
    forall x | x in IndexOf(defs) ensures StoredHash(Hashed(defs, base), x) == IndexOf(defs)[x].hash {
      if !Dirty(defs, base, x) {
        CleanIsUnchanged(defs, base, x);
      }
    }
  }

  lemma CleanIsUnchanged(defs: seq<Definition>, state: State, x: Name)
    requires !Dirty(defs, state, x) && x in IndexOf(defs)
    ensures StoredHash(state, x) == IndexOf(defs)[x].hash
  {
    DirtyStep(defs, state, x);
  }

  /* ---- The run ---- */

  /** The day to process: the one given, else the stored one, else that of the fallback dataset. */
  function DayFor(found: map<string, State>, dataset: string, dsGiven: Option<string>): Result<string, DsError> {
    if dsGiven.Some? then Success(dsGiven.value)
    else
      var source := if dataset in found then dataset else FALLBACK_DATASET;
      DayIn(if source in found then Some(found[source]) else None)
  }

  /** A day that is given is used; without it a dataset uses its own stored day, and only a dataset
      without a state that of the fallback dataset. */
  lemma DayForMeans(found: map<string, State>, dataset: string, dsGiven: Option<string>)
    ensures dsGiven.Some? ==> DayFor(found, dataset, dsGiven) == Success(dsGiven.value)
    ensures dsGiven.None? && dataset in found ==>
              match DayFor(found, dataset, dsGiven)
              case Success(ds) => LAST_DS in found[dataset] && found[dataset][LAST_DS] == ds
              case Failure(e) => LAST_DS !in found[dataset] && e == NoLastDs
    ensures dsGiven.None? && dataset !in found ==>
              match DayFor(found, dataset, dsGiven)
              case Success(ds) => "common" in found && LAST_DS in found["common"] && found["common"][LAST_DS] == ds
              case Failure(e) =>
                if "common" in found then LAST_DS !in found["common"] && e == NoLastDs else e == NoFallback
  {
  }

  ghost predicate HasCycle(defs: seq<Definition>) {
    exists x :: x in Items(GraphOf(defs)) && OnCycle(GraphOf(defs), x)
  }

  ghost predicate HasSelfReference(defs: seq<Definition>) {
    exists d :: d in defs && RefersToItself(d)
  }

  /** The definitions can be processed at all. */
  ghost predicate Usable(defs: seq<Definition>) {
    WellFormed(defs) && !HasCycle(defs) && !HasSelfReference(defs)
  }

  /** Nothing stops the run before it processes tables. */
  ghost predicate CanStart(defs: seq<Definition>, base: State, ds: Result<string, DsError>) {
    ds.Success? && Usable(defs) && |DirtyTables(defs, base)| <= MAX_UPDATED
  }

  /** Fifty dirty tables are processed, fifty-one are not. */
  lemma FiftyAreAllowed(defs: seq<Definition>, base: State, ds: Result<string, DsError>)
    requires ds.Success? && Usable(defs)
    ensures CanStart(defs, base, ds) <==> |DirtyTables(defs, base)| <= 50
  {
  }

  /** Nothing stops it before it persists. */
  ghost predicate CanProcess(defs: seq<Definition>, base: State, onlyUpdated: bool, ds: Result<string, DsError>,
                             fails: Name -> bool) {
    CanStart(defs, base, ds) && forall x :: ToProcess(defs, base, onlyUpdated, x) ==> !fails(x)
  }

  /** What the state becomes, but for its version. */
  ghost function NextState(defs: seq<Definition>, base: State, ds: string): State {
    Hashed(defs, base)[LAST_DS := ds]
  }

  /** Why it is not persisted, if it is not. */
  function Rejection(day: Calendar, stored: Option<State>, next: State, uploads: bool)
    : Option<PersistError>
  {
    var check := CheckVersionAndLastDs(day, stored, next);
    if check.Some? then check else if uploads then None else Some(UploadFailed)
  }

  /** When a run ends in which way; exactly one way each time. */
  ghost predicate Ends(defs: seq<Definition>, base: State, onlyUpdated: bool, ds: Result<string, DsError>,
                       fails: Name -> bool, day: Calendar, stored: Option<State>, uploads: bool,
                       r: Result<string, RunError>) {
    match r
    case Failure(DsMissing(e)) => ds == Failure(e)
    case Failure(Unreadable(e)) =>
      ds.Success? && !WellFormed(defs) && e == if UniqueNames(defs) then MissingRef else DuplicateName
    case Failure(NoStates(Circular(stuck))) =>
      && ds.Success? && WellFormed(defs) && HasCycle(defs)
      && forall x :: x in stuck <==> x in Items(GraphOf(defs)) && DependsOnCycle(GraphOf(defs), x)
    case Failure(NoStates(AssertionFailed)) =>
      ds.Success? && WellFormed(defs) && !HasCycle(defs) && HasSelfReference(defs)
    case Failure(TooManyUpdated) =>
      ds.Success? && Usable(defs) && |DirtyTables(defs, base)| > MAX_UPDATED
    case Failure(ProcessFailed(x)) =>
      CanStart(defs, base, ds) && ToProcess(defs, base, onlyUpdated, x) && fails(x)
    case Failure(NotPersisted(e)) =>
      && CanProcess(defs, base, onlyUpdated, ds, fails)
      && Rejection(day, stored, NextState(defs, base, ds.value), uploads) == Some(e)
    case Success(d) =>
      && CanProcess(defs, base, onlyUpdated, ds, fails) && ds == Success(d)
      && Rejection(day, stored, NextState(defs, base, d), uploads) == None
  }

  /** Two ends are the same, but for which of the tables that cannot be processed came first and for
      what the stuck tables still wait for. */
  ghost predicate SameEnd(r: Result<string, RunError>, q: Result<string, RunError>) {
    || r == q
    || (r.Failure? && q.Failure? && r.error.ProcessFailed? && q.error.ProcessFailed?)
    || (r.Failure? && q.Failure? && r.error.NoStates? && q.error.NoStates?
        && r.error.states.Circular? && q.error.states.Circular?
        && r.error.states.stuck.Keys == q.error.states.stuck.Keys)
  }

  /** The conditions exclude each other: what a run starts from determines how it ends, and it returns
      exactly if nothing is in its way. */
  lemma EndIsDetermined(defs: seq<Definition>, base: State, onlyUpdated: bool, ds: Result<string, DsError>,
                        fails: Name -> bool, day: Calendar, stored: Option<State>, uploads: bool,
                        r: Result<string, RunError>, q: Result<string, RunError>)
    requires Ends(defs, base, onlyUpdated, ds, fails, day, stored, uploads, r)
    requires Ends(defs, base, onlyUpdated, ds, fails, day, stored, uploads, q)
    ensures SameEnd(r, q)
    ensures r.Success? <==>
              && CanProcess(defs, base, onlyUpdated, ds, fails)
              && Rejection(day, stored, NextState(defs, base, ds.value), uploads) == None
  {
    if r.Failure? && q.Failure? && r.error.NoStates? && q.error.NoStates?
       && r.error.states.Circular? && q.error.states.Circular? {
      SameKeys(r.error.states.stuck, q.error.states.stuck);
    }
  }

  lemma SameKeys(a: Graph, b: Graph)
    requires forall x :: x in a <==> x in b
    ensures a.Keys == b.Keys
  {
  }

  /** The second half of the run, from the limit on updates on. */
  method ProcessAndPersist(
    manager: ParseStateManager, files: seq<Definition>, states: seq<TableState>, ds: string, onlyUpdated: bool,
    meanwhile: map<string, State>, fails: Name -> bool, stamp: string, uploads: bool)
    returns (r: Result<string, RunError>, processed: seq<Name>)
    requires Usable(files) && StatesOf(files, manager.state, states)
    modifies manager`state, manager.bucket
    ensures Ends(files, old(manager.state), onlyUpdated, Success(ds), fails, manager.day,
                 if manager.dataset in meanwhile then Some(meanwhile[manager.dataset]) else None, uploads, r)
    ensures r.Failure? ==>
              manager.bucket.files == if r.error.NotPersisted? then meanwhile else old(manager.bucket.files)
    ensures r.Failure? ==> r.error.TooManyUpdated? || r.error.ProcessFailed? || r.error.NotPersisted?
    ensures ProcessedUntil(files, old(manager.state), onlyUpdated, fails, processed, r)
    ensures r.Success? ==>
              && manager.state == NextState(files, old(manager.state), ds)[VERSION := stamp]
              && manager.bucket.files == meanwhile[manager.dataset := manager.state]
  {
    processed := [];
    AllUpdatedCountsDirty(files, manager.state, states);
    if |Updated(states)| > MAX_UPDATED {
      return Failure(TooManyUpdated), [];
    }
    var failed;
    failed, processed := ProcessTables(files, manager.state, states, onlyUpdated, fails);
    if failed.Some? {
      return Failure(ProcessFailed(failed.value)), processed;
    }
    CommitHashes(manager, files, states);
    manager.SetLastDs(ds);
    manager.bucket.files := meanwhile;
    var err := manager.PersistState(stamp, uploads);
    r := if err.Some? then Failure(NotPersisted(err.value)) else Success(ds);
  }

  /** What has been processed when the run ends like this: in order and without failure; all that was
      due if the run came to persist, nothing if it did not come to process. */
  ghost predicate ProcessedUntil(defs: seq<Definition>, base: State, onlyUpdated: bool, fails: Name -> bool,
                                 processed: seq<Name>, r: Result<string, RunError>) {
    && ProcessedInOrder(defs, base, onlyUpdated, processed)
    && (forall x :: x in processed ==> ToProcess(defs, base, onlyUpdated, x) && !fails(x))
    && match r
       case Failure(NotPersisted(_)) => forall x :: ToProcess(defs, base, onlyUpdated, x) ==> x in processed
       case Failure(ProcessFailed(x)) => DepsDone(defs, base, onlyUpdated, x, processed)
       case Failure(_) => processed == []
       case Success(_) => forall x :: ToProcess(defs, base, onlyUpdated, x) ==> x in processed
  }

  /** The whole run. `files` are the definition files, `dsGiven` the day if the scheduler gave one,
      `othersWrote` what other processes made of the bucket during the sleep before a first run,
      `meanwhile` what they have made of it when this run comes to persist, `fails` which tables
      cannot be processed, and the last two the clock and whether the upload goes through.

      A run that raises writes nothing. One that returns has processed what was due, in order, and
      stores the current hashes, the day and its version over whatever it was allowed to replace. */
  method ParseDatasetFolder(
    manager: ParseStateManager, files: seq<Definition>, dsGiven: Option<string>, onlyUpdated: bool,
    othersWrote: map<string, State>, meanwhile: map<string, State>, fails: Name -> bool, stamp: string, uploads: bool)
    returns (r: Result<string, RunError>, processed: seq<Name>, ghost found: map<string, State>, ghost base: State)
    requires manager.Synced()
    modifies manager, manager.bucket
    ensures found == if dsGiven.Some? && old(manager.isStateEmpty) then othersWrote else old(manager.bucket.files)
    ensures base == if manager.dataset in found then found[manager.dataset] else map[]
    ensures Ends(files, base, onlyUpdated, DayFor(found, manager.dataset, dsGiven), fails, manager.day,
                 if manager.dataset in meanwhile then Some(meanwhile[manager.dataset]) else None, uploads, r)
    ensures r.Failure? ==> manager.bucket.files == if r.error.NotPersisted? then meanwhile else found
    ensures ProcessedUntil(files, base, onlyUpdated, fails, processed, r)
    ensures r.Success? ==>
              && manager.state == NextState(files, base, r.value)[VERSION := stamp]
              && manager.bucket.files == meanwhile[manager.dataset := manager.state]
  {
    processed, found := [], manager.bucket.files;
    base := manager.state;
    var ds: string;
    if dsGiven.None? {
      var got: Result<string, DsError>;
      if manager.isStateEmpty {
        got := manager.GetFallbackLastDs();
      } else {
        got := manager.GetLastDs();
      }
      assert got == DayFor(found, manager.dataset, dsGiven);
      if got.Failure? {
        r := Failure(DsMissing(got.error));
        return;
      }
      ds := got.value;
    } else {
      ds := dsGiven.value;
      if manager.isStateEmpty {
        manager.bucket.files := othersWrote;
        manager.SyncStateFile();
        found := othersWrote;
        base := manager.state;
      }
    }
    var definitions := ReadTableDefinitions(files);
    if definitions.Failure? {
      r := Failure(Unreadable(definitions.error));
      return;
    }
    var states := ToposortAndReadStates(files, manager.state);
    if states.Failure? {
      r := Failure(NoStates(states.error));
      return;
    }
    r, processed := ProcessAndPersist(manager, files, states.value, ds, onlyUpdated, meanwhile, fails, stamp, uploads);
  }

  /** What a run that returns leaves behind, given what it started from: the current hashes, but for
      tables whose names are the two keys that the manager uses for itself. */
  ghost predicate Committed(defs: seq<Definition>, base: State, state: State, ds: string, stamp: string) {
    && Get(state, VERSION) == Some(stamp)
    && Get(state, LAST_DS) == Some(ds)
    && (forall x :: x !in IndexOf(defs) && x != VERSION && x != LAST_DS ==> Get(state, x) == Get(base, x))
    && (forall x :: x in IndexOf(defs) && x != VERSION && x != LAST_DS ==>
          StoredHash(state, x) == IndexOf(defs)[x].hash)
  }

  lemma CommittedAfter(defs: seq<Definition>, base: State, ds: string, stamp: string)
    ensures Committed(defs, base, NextState(defs, base, ds)[VERSION := stamp], ds, stamp)
  {
    var hashed := Hashed(defs, base);
    var state := hashed[LAST_DS := ds][VERSION := stamp];
    HashedIsUpToDate(defs, base);
    assert VERSION[1] != LAST_DS[1];
    forall x | x != VERSION && x != LAST_DS
      ensures Get(state, x) == Get(hashed, x) && StoredHash(state, x) == StoredHash(hashed, x)
    {
    }
  }

  /** Exactly when a second run on unchanged files, by whatever process, has nothing to refresh: a
      table named like one of the manager's own keys must happen to have the hash that the manager
      puts there. */
  lemma SecondRunRefreshesNothingIff(defs: seq<Definition>, base: State, state: State, ds: string, stamp: string)
    requires Committed(defs, base, state, ds, stamp)
    ensures (forall x :: !Dirty(defs, state, x)) <==>
              && (LAST_DS in IndexOf(defs) ==> IndexOf(defs)[LAST_DS].hash == ds)
              && (VERSION in IndexOf(defs) ==> IndexOf(defs)[VERSION].hash == stamp)
  {
    forall x ensures Changed(defs, state, x) ==> Dirty(defs, state, x) {
      DirtyStep(defs, state, x);
    }
    if (LAST_DS in IndexOf(defs) ==> IndexOf(defs)[LAST_DS].hash == ds)
       && (VERSION in IndexOf(defs) ==> IndexOf(defs)[VERSION].hash == stamp) {
      forall y ensures !Changed(defs, state, y) {
      }
    } else if LAST_DS in IndexOf(defs) && IndexOf(defs)[LAST_DS].hash != ds {
      assert Changed(defs, state, LAST_DS);
    } else {
      assert Changed(defs, state, VERSION);
    }
  }
}
