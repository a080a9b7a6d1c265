/** The parse state kept in a bucket, and its optimistic locking
    (airflow/dags/polygonetl_airflow/parse/parse_state_manager.py). */
module ParseState {
  import opened Common

  type State = map<string, string>

  /** Numbers the days; None for text that is not a date. */
  type Calendar = string -> Option<int>

  const VERSION := "_version"
  const LAST_DS := "_last_ds"
  const FALLBACK_DATASET := "common"

  datatype PersistError = OtherProcess | DaySkipped | BadDate | UploadFailed

  datatype DsError = NoLastDs | NoFallback

  function Get(s: State, key: string): Option<string> {
    if key in s then Some(s[key]) else None
  }

  /** `not x` of a value that may be missing. */
  predicate Falsy(v: Option<string>) { v.None? || v.value == "" }

  /** The check before an upload: what the file holds against what the process holds. Dates are
      numbered by `day`, which fails on text that is not a date. */
  function CheckVersionAndLastDs(day: Calendar, stored: Option<State>, mem: State): Option<PersistError> {
    if stored.None? || Falsy(Get(stored.value, VERSION)) then None
    else if Get(mem, VERSION) != Get(stored.value, VERSION) then Some(OtherProcess)
    else if Falsy(Get(stored.value, LAST_DS)) then None
    else CheckLastDs(day, stored.value[LAST_DS], Get(mem, LAST_DS))
  }

  function CheckLastDs(day: Calendar, previous: string, current: Option<string>): Option<PersistError> {
    if day(previous).None? || current.None? || day(current.value).None? then Some(BadDate)
    else if day(current.value).value != day(previous).value
            && day(current.value).value != day(previous).value + 1 then Some(DaySkipped)
    else None
  }

  /* ---- What the check means ---- */

  /** The file restricts nothing: it is missing, or has no version. */
  predicate Unversioned(stored: Option<State>) {
    stored.None? || VERSION !in stored.value || stored.value[VERSION] == ""
  }

  predicate HasDay(s: State) { LAST_DS in s && s[LAST_DS] != "" }

  predicate SameVersion(stored: State, mem: State) {
    VERSION in stored && VERSION in mem && stored[VERSION] == mem[VERSION]
  }

  /** Both have a day that is a date. */
  predicate HaveDates(day: Calendar, stored: State, mem: State) {
    LAST_DS in stored && LAST_DS in mem && day(stored[LAST_DS]).Some? && day(mem[LAST_DS]).Some?
  }

  /** How many days the process is ahead of the file. */
  function DaysAhead(day: Calendar, stored: State, mem: State): int
    requires HaveDates(day, stored, mem)
  {
    day(mem[LAST_DS]).value - day(stored[LAST_DS]).value
  }

  /** Which decision is right: an upload is accepted if the file restricts nothing, or if the versions
      are equal and the day, if the file has one, stays or moves on by one. */
  ghost predicate IsDecision(day: Calendar, stored: Option<State>, mem: State, err: Option<PersistError>) {
    match err
    case None =>
      || Unversioned(stored)
      || (SameVersion(stored.value, mem)
          && (HasDay(stored.value) ==>
                HaveDates(day, stored.value, mem) && DaysAhead(day, stored.value, mem) in {0, 1}))
    case Some(OtherProcess) => !Unversioned(stored) && !SameVersion(stored.value, mem)
    case Some(BadDate) =>
      && !Unversioned(stored) && SameVersion(stored.value, mem)
      && HasDay(stored.value) && !HaveDates(day, stored.value, mem)
    case Some(DaySkipped) =>
      && !Unversioned(stored) && SameVersion(stored.value, mem) && HasDay(stored.value)
      && HaveDates(day, stored.value, mem) && DaysAhead(day, stored.value, mem) !in {0, 1}
    case Some(UploadFailed) => false
  }

  lemma CheckDecides(day: Calendar, stored: Option<State>, mem: State)
    ensures IsDecision(day, stored, mem, CheckVersionAndLastDs(day, stored, mem))
  {
  }

  /** There is one right decision each time. */
  lemma DecisionIsUnique(
    day: Calendar, stored: Option<State>, mem: State, e: Option<PersistError>, f: Option<PersistError>)
    requires IsDecision(day, stored, mem, e) && IsDecision(day, stored, mem, f)
    ensures e == f
  {
  }

  /** The day that a file's content has, if there is the file. */
  function DayIn(content: Option<State>): Result<string, DsError> {
    if content.None? then Failure(NoFallback)
    else if LAST_DS in content.value then Success(content.value[LAST_DS])
    else Failure(NoLastDs)
  }

  /** The files of the bucket, by dataset; an empty file counts as none. */
  class Bucket {
    var files: map<string, State>

    constructor (f: map<string, State>)
      ensures files == f
    {
      files := f;
    }

    function Download(dataset: string): Option<State>
      reads this
    {
      if dataset in files then Some(files[dataset]) else None
    }
  }

  class ParseStateManager {
    const bucket: Bucket
    const dataset: string
    const day: Calendar
    var state: State
    var isStateEmpty: bool

    constructor (b: Bucket, name: string, d: Calendar)
      ensures bucket == b && dataset == name && day == d && Synced()
    {
      bucket := b;
      dataset := name;
      day := d;
      var file := b.Download(name);
      state := if file.Some? then file.value else map[];
      isStateEmpty := file.None?;
    }

    /** The process holds what the file holds. */
    ghost predicate Synced()
      reads this, bucket
    {
      && isStateEmpty == bucket.Download(dataset).None?
      && state == if isStateEmpty then map[] else bucket.Download(dataset).value
    }

    method SyncStateFile()
      modifies this
      ensures Synced()
    {
      var file := bucket.Download(dataset);
      if file.Some? {
        state, isStateEmpty := file.value, false;
      } else {
        state, isStateEmpty := map[], true;
      }
    }

    method SetContentHash(table: string, hash: string)
      modifies this`state
      ensures state == old(state)[table := hash]
    {
      state := state[table := hash];
    }

    method SetLastDs(ds: string)
      modifies this`state
      ensures state == old(state)[LAST_DS := ds]
    {
      state := state[LAST_DS := ds];
    }

    method GetLastDs() returns (r: Result<string, DsError>)
      ensures r == DayIn(Some(state))
    {
      if LAST_DS !in state {
        return Failure(NoLastDs);
      }
      return Success(state[LAST_DS]);
    }

    method GetFallbackLastDs() returns (r: Result<string, DsError>)
      ensures r == DayIn(bucket.Download(FALLBACK_DATASET))
    {
      var file := bucket.Download(FALLBACK_DATASET);
      if file.None? {
        return Failure(NoFallback);
      }
      if LAST_DS !in file.value {
        return Failure(NoLastDs);
      }
      return Success(file.value[LAST_DS]);
    }

    /** Persist is one step: nobody writes between the check and the upload. `stamp` is the clock
        reading that becomes the version. A rejected persist changes nothing; one whose upload fails
        has already given the state in memory its new version. */
    method PersistState(stamp: string, uploads: bool) returns (err: Option<PersistError>)
      modifies this`state, bucket
      ensures var check := CheckVersionAndLastDs(day, old(bucket.Download(dataset)), old(state));
              if check.Some? then
                err == check && state == old(state) && bucket.files == old(bucket.files)
              else
                && state == old(state)[VERSION := stamp]
                && (if uploads then err == None && bucket.files == old(bucket.files)[dataset := state]
                    else err == Some(UploadFailed) && bucket.files == old(bucket.files))
      ensures IsDecision(day, old(bucket.Download(dataset)), old(state),
                if err == Some(UploadFailed) then None else err)
    {
      CheckDecides(day, bucket.Download(dataset), state);
      err := CheckVersionAndLastDs(day, bucket.Download(dataset), state);
      if err.Some? {
        return;
      }
      state := state[VERSION := stamp];
      if !uploads {
        return Some(UploadFailed);
      }
      bucket.files := bucket.files[dataset := state];
    }
  }

  /* ---- Several processes on one dataset ---- */

  /** What the file held first and every upload since; by process, the state it holds; and as
      history, by process, how many uploads its state has seen, and for every upload, how many the
      state uploaded had seen. */
  datatype World = World(
    first: Option<State>,
    uploads: seq<State>,
    mem: map<nat, State>,
    basis: map<nat, nat>,
    basedOn: seq<nat>)
  {
    function Content(g: nat): Option<State>
      requires g <= |uploads|
    {
      if g == 0 then first else Some(uploads[g - 1])
    }

    function Current(): Option<State> { Content(|uploads|) }
  }

  function Start(initial: Option<State>): World {
    World(initial, [], map[], map[], [])
  }

  datatype Action = Sync(m: nat) | Edit(m: nat, next: State) | Persist(m: nat, stamp: string)
                  | Reject(m: nat) | LoseUpload(m: nat, stamp: string)

  /** One step of process m. Edits are the hashes and the day that a run sets; table names differ
      from `_version`. */
  ghost predicate Does(day: Calendar, w: World, w': World, a: Action) {
    match a
    case Sync(m) =>
      w' == w.(mem := w.mem[m := if w.Current().Some? then w.Current().value else map[]],
               basis := w.basis[m := |w.uploads|])
    case Edit(m, next) =>
      && m in w.mem && Get(next, VERSION) == Get(w.mem[m], VERSION)
      && w' == w.(mem := w.mem[m := next])
    case Persist(m, stamp) =>
      && m in w.mem && m in w.basis && stamp != ""
      && CheckVersionAndLastDs(day, w.Current(), w.mem[m]).None?
      && w' == Uploaded(w, m, w.mem[m][VERSION := stamp])
    case Reject(m) => w' == w
    case LoseUpload(m, stamp) =>
      && m in w.mem && stamp != ""
      && CheckVersionAndLastDs(day, w.Current(), w.mem[m]).None?
      && w' == w.(mem := w.mem[m := w.mem[m][VERSION := stamp]])
  }

  function Uploaded(w: World, m: nat, next: State): World
    requires m in w.basis
  {
    World(w.first, w.uploads + [next], w.mem[m := next], w.basis[m := |w.uploads| + 1],
          w.basedOn + [w.basis[m]])
  }

  ghost predicate IsRun(day: Calendar, initial: Option<State>, run: seq<World>, actions: seq<Action>) {
    && |run| == |actions| + 1 && run[0] == Start(initial)
    && forall i :: 0 <= i < |actions| ==> Does(day, run[i], run[i + 1], actions[i])
  }

  function StampOf(a: Action): Option<string> {
    if a.Persist? || a.LoseUpload? then Some(a.stamp) else None
  }

  function VersionOf(content: Option<State>): Option<string> {
    if content.Some? then Get(content.value, VERSION) else None
  }

  /** The clock readings taken, in order. */
  function Stamps(actions: seq<Action>): seq<string> {
    if actions == [] then []
    else Stamps(actions[..|actions| - 1]) +
         if StampOf(actions[|actions| - 1]).Some? then [StampOf(actions[|actions| - 1]).value] else []
  }

  function Seen(actions: seq<Action>): set<string> {
    set s | s in Stamps(actions)
  }

  /** The version the file has at first, and then those that the clock readings would give it. */
  function Clock(initial: Option<State>, stamps: seq<string>): seq<Option<string>> {
    [VersionOf(initial)] + seq(|stamps|, i requires 0 <= i < |stamps| => Some(stamps[i]))
  }

  /** The first n versions are different. */
  ghost predicate Differ(versions: seq<Option<string>>, n: nat)
    requires n <= |versions|
  {
    forall i, j :: 0 <= i < j < n ==> versions[i] != versions[j]
  }

  ghost predicate UniqueStamps(initial: Option<State>, stamps: seq<string>) {
    Differ(Clock(initial, stamps), |stamps| + 1)
  }

  lemma {:induction false} StampsPrefix(actions: seq<Action>, n: nat)
    requires n <= |actions|
    ensures Stamps(actions[..n]) <= Stamps(actions)
  {
    if n == |actions| {
      assert actions[..n] == actions;
    } else {
      var init := actions[..|actions| - 1];
      StampsPrefix(init, n);
      assert init[..n] == actions[..n];
    }
  }

  lemma UniqueOfPrefix(initial: Option<State>, shorter: seq<string>, longer: seq<string>, n: nat)
    requires shorter <= longer && |shorter| + 1 <= n <= |longer| + 1
    requires Differ(Clock(initial, longer), n)
    ensures UniqueStamps(initial, shorter)
  {
    assert Clock(initial, shorter) == Clock(initial, longer)[..|shorter| + 1];
  }

  lemma NextStampIsNew(initial: Option<State>, stamps: seq<string>, s: string)
    requires UniqueStamps(initial, stamps + [s])
    ensures UniqueStamps(initial, stamps) && s !in stamps && Some(s) != VersionOf(initial)
  {
    UniqueOfPrefix(initial, stamps, stamps + [s], |stamps| + 2);
    var clock := Clock(initial, stamps + [s]);
    assert clock[|stamps| + 1] == Some(s) && clock[0] == VersionOf(initial);
    forall i | 0 <= i < |stamps| ensures stamps[i] != s {
      assert clock[i + 1] == Some(stamps[i]);
    }
  }

  /** The versions of all contents of the file. */
  function Versions(w: World): seq<Option<string>> {
    [VersionOf(w.first)] + seq(|w.uploads|, g requires 0 <= g < |w.uploads| => Get(w.uploads[g], VERSION))
  }

  /** Versions of uploads are stamps seen so far, and no two contents have the same version. */
  ghost predicate VersionsOk(vs: seq<Option<string>>, seen: set<string>) {
    && (forall g :: 0 < g < |vs| ==> vs[g].Some? && vs[g].value != "" && vs[g].value in seen)
    && (forall g, h :: 0 <= g < h < |vs| ==> vs[g] != vs[h])
  }

  /** The version in memory is that of the content the state is based on, or that of an upload that
      failed. */
  ghost predicate VersionKnown(vs: seq<Option<string>>, seen: set<string>, v: Option<string>, basis: nat) {
    && basis < |vs|
    && (v == vs[basis] || (v.Some? && v.value in seen && v !in vs))
  }

  ghost predicate MemoryOk(w: World, seen: set<string>) {
    && w.mem.Keys == w.basis.Keys
    && forall m :: m in w.mem ==> VersionKnown(Versions(w), seen, Get(w.mem[m], VERSION), w.basis[m])
  }

  ghost predicate Inv(initial: Option<State>, w: World, seen: set<string>) {
    && w.first == initial
    && VersionsOk(Versions(w), seen)
    && MemoryOk(w, seen)
    && |w.basedOn| == |w.uploads|
    && forall g :: 0 <= g < |w.basedOn| ==> w.basedOn[g] == g
  }

  /** A state that passes the check is based on the current content. */
  lemma PersistIsBasedOnCurrent(day: Calendar, initial: Option<State>, w: World, seen: set<string>, m: nat)
    requires Inv(initial, w, seen) && m in w.mem
    requires CheckVersionAndLastDs(day, w.Current(), w.mem[m]).None?
    ensures w.basis[m] == |w.uploads|
  {
    var vs, now := Versions(w), |w.uploads|;
    assert VersionKnown(vs, seen, Get(w.mem[m], VERSION), w.basis[m]);
    assert VersionOf(w.Current()) == vs[now];
    assert now > 0 ==> Get(w.mem[m], VERSION) == vs[now];
    assert now > 0 ==> vs[now] in vs;
  }

  lemma PersistKeeps(day: Calendar, initial: Option<State>, w: World, w': World, seen: set<string>, a: Action)
    requires Inv(initial, w, seen) && a.Persist? && Does(day, w, w', a)
    requires a.stamp !in seen && Some(a.stamp) != VersionOf(initial)
    ensures Inv(initial, w', seen + {a.stamp})
  {
    PersistIsBasedOnCurrent(day, initial, w, seen, a.m);
    VersionsOfUploaded(w, a.m, w.mem[a.m][VERSION := a.stamp]);
    NewVersion(Versions(w), seen, initial, a.stamp);
    UploadKeepsMemory(w, w', seen, a.m, a.stamp);
  }

  lemma VersionsOfUploaded(w: World, m: nat, next: State)
    requires m in w.basis
    ensures Versions(Uploaded(w, m, next)) == Versions(w) + [Get(next, VERSION)]
    ensures |Versions(w)| == |w.uploads| + 1 && Versions(w)[0] == VersionOf(w.first)
  {
  }

  lemma UploadKeepsMemory(w: World, w': World, seen: set<string>, m: nat, stamp: string)
    requires MemoryOk(w, seen) && m in w.mem && m in w.basis && stamp !in seen
    requires w' == Uploaded(w, m, w.mem[m][VERSION := stamp])
    requires Versions(w') == Versions(w) + [Some(stamp)] && |Versions(w)| == |w.uploads| + 1
    ensures MemoryOk(w', seen + {stamp})
  {
    var vs := Versions(w);
    forall n | n in w'.mem
      ensures VersionKnown(vs + [Some(stamp)], seen + {stamp}, Get(w'.mem[n], VERSION), w'.basis[n])
    {
      if n != m {
        assert VersionKnown(vs, seen, Get(w.mem[n], VERSION), w.basis[n]);
        StillKnown(vs, seen, Get(w.mem[n], VERSION), w.basis[n], stamp);
      }
    }
  }

  lemma NewVersion(vs: seq<Option<string>>, seen: set<string>, initial: Option<State>, stamp: string)
    requires VersionsOk(vs, seen) && vs != [] && vs[0] == VersionOf(initial)
    requires stamp !in seen && stamp != "" && Some(stamp) != VersionOf(initial)
    ensures VersionsOk(vs + [Some(stamp)], seen + {stamp})
  {
  }

  lemma StillKnown(vs: seq<Option<string>>, seen: set<string>, v: Option<string>, basis: nat, stamp: string)
    requires VersionKnown(vs, seen, v, basis) && stamp !in seen
    ensures VersionKnown(vs + [Some(stamp)], seen + {stamp}, v, basis)
  {
  }

  lemma LoseUploadKeeps(day: Calendar, initial: Option<State>, w: World, w': World, seen: set<string>, a: Action)
    requires Inv(initial, w, seen) && a.LoseUpload? && Does(day, w, w', a)
    requires a.stamp !in seen && Some(a.stamp) != VersionOf(initial)
    ensures Inv(initial, w', seen + {a.stamp})
  {
    var vs := Versions(w);
    assert Versions(w') == vs;
    assert Some(a.stamp) !in vs;
    forall m | m in w'.mem
      ensures VersionKnown(vs, seen + {a.stamp}, Get(w'.mem[m], VERSION), w'.basis[m]) {
      assert VersionKnown(vs, seen, Get(w.mem[m], VERSION), w.basis[m]);
    }
  }

  lemma SyncKeeps(day: Calendar, initial: Option<State>, w: World, w': World, seen: set<string>, a: Action)
    requires Inv(initial, w, seen) && a.Sync? && Does(day, w, w', a)
    ensures Inv(initial, w', seen)
  {
    var vs := Versions(w);
    assert Versions(w') == vs;
    assert VersionKnown(vs, seen, Get(w'.mem[a.m], VERSION), |w.uploads|) by {
      assert VersionOf(w.Current()) == vs[|w.uploads|];
    }
    forall m | m in w'.mem && m != a.m
      ensures VersionKnown(vs, seen, Get(w'.mem[m], VERSION), w'.basis[m]) {
      assert VersionKnown(vs, seen, Get(w.mem[m], VERSION), w.basis[m]);
    }
  }

  lemma EditKeeps(day: Calendar, initial: Option<State>, w: World, w': World, seen: set<string>, a: Action)
    requires Inv(initial, w, seen) && (a.Edit? || a.Reject?) && Does(day, w, w', a)
    ensures Inv(initial, w', seen)
  {
    var vs := Versions(w);
    assert Versions(w') == vs;
    forall m | m in w'.mem ensures VersionKnown(vs, seen, Get(w'.mem[m], VERSION), w'.basis[m]) {
      assert VersionKnown(vs, seen, Get(w.mem[m], VERSION), w.basis[m]);
    }
  }

  lemma {:induction false} RunKeeps(
    day: Calendar, initial: Option<State>, run: seq<World>, actions: seq<Action>, n: nat)
    requires IsRun(day, initial, run, actions) && n <= |actions| && UniqueStamps(initial, Stamps(actions[..n]))
    ensures Inv(initial, run[n], Seen(actions[..n]))
  {
    if n > 0 {
      var k, a := n - 1, actions[n - 1];
      assert Does(day, run[k], run[k + 1], a);
      assert actions[..n][..k] == actions[..k];
      if StampOf(a).Some? {
        assert Stamps(actions[..n]) == Stamps(actions[..k]) + [a.stamp];
        NextStampIsNew(initial, Stamps(actions[..k]), a.stamp);
        assert Seen(actions[..n]) == Seen(actions[..k]) + {a.stamp};
      } else {
        assert Stamps(actions[..n]) == Stamps(actions[..k]);
      }
      RunKeeps(day, initial, run, actions, k);
      StepKeeps(day, initial, run[k], run[n], Seen(actions[..k]), a);
    }
  }

  lemma StepKeeps(day: Calendar, initial: Option<State>, w: World, w': World, seen: set<string>, a: Action)
    requires Inv(initial, w, seen) && Does(day, w, w', a)
    requires StampOf(a).Some? ==> a.stamp !in seen && Some(a.stamp) != VersionOf(initial)
    ensures Inv(initial, w', if StampOf(a).Some? then seen + {a.stamp} else seen)
  {
    match a
    case Persist(_, _) => PersistKeeps(day, initial, w, w', seen, a);
    case LoseUpload(_, _) => LoseUploadKeeps(day, initial, w, w', seen, a);
    case Sync(_) => SyncKeeps(day, initial, w, w', seen, a);
    case _ => EditKeeps(day, initial, w, w', seen, a);
  }

  /* ---- Lost updates ---- */

  /** Each upload was made from a state that had seen all the uploads before it. */
  ghost predicate NothingLost(w: World) {
    |w.basedOn| == |w.uploads| && forall g :: 0 <= g < |w.basedOn| ==> w.basedOn[g] == g
  }

  /** Whatever processes do while the clock reads these stamps, no update is lost. */
  ghost predicate LosesNoUpdate(day: Calendar, initial: Option<State>, stamps: seq<string>) {
    forall run: seq<World>, actions ::
      IsRun(day, initial, run, actions) && Stamps(actions) <= stamps ==> NothingLost(run[|actions|])
  }

  /** The reading that gives the last upload its version need not be new. */
  lemma {:induction false} NoLostUpdate(
    day: Calendar, initial: Option<State>, run: seq<World>, actions: seq<Action>, stamps: seq<string>, n: nat)
    requires IsRun(day, initial, run, actions) && n <= |actions|
    requires Stamps(actions) <= stamps && Differ(Clock(initial, stamps), |stamps|)
    ensures NothingLost(run[n])
  {
    if n > 0 {
      var k, a := n - 1, actions[n - 1];
      assert Does(day, run[k], run[k + 1], a);
      NoLostUpdate(day, initial, run, actions, stamps, k);
      if a.Persist? {
        NextPersistSeesAll(day, initial, run, actions, stamps, k);
      }
    }
  }

  lemma NextPersistSeesAll(
    day: Calendar, initial: Option<State>, run: seq<World>, actions: seq<Action>, stamps: seq<string>, k: nat)
    requires IsRun(day, initial, run, actions) && k < |actions| && actions[k].Persist?
    requires Stamps(actions) <= stamps && Differ(Clock(initial, stamps), |stamps|)
    ensures actions[k].m in run[k].basis && run[k].basis[actions[k].m] == |run[k].uploads|
  {
    assert Does(day, run[k], run[k + 1], actions[k]);
    StampsBeforeAreUnique(initial, actions, stamps, k);
    RunKeeps(day, initial, run, actions, k);
    PersistIsBasedOnCurrent(day, initial, run[k], Seen(actions[..k]), actions[k].m);
  }

  lemma StampsBeforeAreUnique(initial: Option<State>, actions: seq<Action>, stamps: seq<string>, k: nat)
    requires k < |actions| && actions[k].Persist?
    requires Stamps(actions) <= stamps && Differ(Clock(initial, stamps), |stamps|)
    ensures UniqueStamps(initial, Stamps(actions[..k]))
  {
    StampsGrow(actions, k);
    PrefixOfPrefix(Stamps(actions[..k]), Stamps(actions), stamps);
    UniqueOfPrefix(initial, Stamps(actions[..k]), stamps, |stamps|);
  }

  lemma StampsGrow(actions: seq<Action>, k: nat)
    requires k < |actions| && actions[k].Persist?
    ensures Stamps(actions[..k]) <= Stamps(actions) && |Stamps(actions[..k])| < |Stamps(actions)|
  {
    StampsPrefix(actions, k);
    StampsPrefix(actions, k + 1);
    assert actions[..k + 1][..k] == actions[..k];
  }

  lemma PrefixOfPrefix<T>(xs: seq<T>, ys: seq<T>, zs: seq<T>)
    requires xs <= ys <= zs
    ensures xs <= zs
  {
  }

  /** Some run leads to w and takes these stamps. */
  ghost predicate Reached(day: Calendar, initial: Option<State>, stamps: seq<string>, w: World) {
    exists run: seq<World>, actions ::
      (IsRun(day, initial, run, actions) && Stamps(actions) == stamps && run[|actions|] == w)
  }

  lemma Then(day: Calendar, initial: Option<State>, stamps: seq<string>, w: World, w': World, a: Action)
    requires Reached(day, initial, stamps, w) && Does(day, w, w', a)
    ensures Reached(day, initial, stamps + (if StampOf(a).Some? then [a.stamp] else []), w')
  {
    var run: seq<World>, actions :|
      IsRun(day, initial, run, actions) && Stamps(actions) == stamps && run[|actions|] == w;
    assert IsRun(day, initial, run + [w'], actions + [a]);
    assert (actions + [a])[..|actions|] == actions;
  }

  /** The stored day, if there is one, is a date. */
  predicate DayReadable(day: Calendar, content: Option<State>) {
    content.Some? && !Falsy(Get(content.value, LAST_DS)) ==> day(content.value[LAST_DS]).Some?
  }

  function StateOf(content: Option<State>): State {
    if content.Some? then content.value else map[]
  }

  lemma SameVersionPasses(day: Calendar, content: Option<State>, mem: State)
    requires DayReadable(day, content)
    requires content.Some? ==> Get(mem, VERSION) == VersionOf(content)
    requires content.Some? ==> Get(mem, LAST_DS) == Get(content.value, LAST_DS)
    ensures CheckVersionAndLastDs(day, content, mem).None?
  {
  }

  /** Process 0 is alone at work: n uploads with the first n stamps, and it holds the last one. */
  ghost predicate Leading(day: Calendar, initial: Option<State>, stamps: seq<string>, w: World, n: nat) {
    && n <= |stamps| && Reached(day, initial, stamps[..n], w)
    && w.first == initial && |w.uploads| == |w.basedOn| == n
    && 0 in w.mem && 0 in w.basis && w.mem[0] == StateOf(w.Current())
    && VersionOf(w.Current()) == Clock(initial, stamps)[n]
    && DayReadable(day, w.Current())
  }

  lemma {:induction false} KeepLeading(
    day: Calendar, initial: Option<State>, stamps: seq<string>, w: World, n: nat, m: nat)
    returns (w': World)
    requires Leading(day, initial, stamps, w, n) && n <= m <= |stamps|
    requires forall s :: s in stamps ==> s != ""
    ensures Leading(day, initial, stamps, w', m)
    ensures 1 in w.mem && 1 in w.basis ==>
              (1 in w'.mem && 1 in w'.basis && w'.mem[1] == w.mem[1] && w'.basis[1] == w.basis[1])
    ensures Get(StateOf(w'.Current()), LAST_DS) == Get(StateOf(w.Current()), LAST_DS)
    decreases m - n
  {
    if n == m {
      w' := w;
    } else {
      assert stamps[n] in stamps;
      var u := LeadOnce(day, initial, stamps, w, n);
      w' := KeepLeading(day, initial, stamps, u, n + 1, m);
    }
  }

  lemma LeadOnce(day: Calendar, initial: Option<State>, stamps: seq<string>, w: World, n: nat) returns (w': World)
    requires Leading(day, initial, stamps, w, n) && n < |stamps| && stamps[n] != ""
    ensures Leading(day, initial, stamps, w', n + 1)
    ensures w'.mem == w.mem[0 := w'.mem[0]] && w'.basis == w.basis[0 := w'.basis[0]]
    ensures Get(StateOf(w'.Current()), LAST_DS) == Get(StateOf(w.Current()), LAST_DS)
  {
    assert VERSION[1] != LAST_DS[1];
    SameVersionPasses(day, w.Current(), w.mem[0]);
    w' := PersistsNext(day, initial, stamps, w, n, 0);
  }

  lemma PersistsNext(day: Calendar, initial: Option<State>, stamps: seq<string>, w: World, n: nat, m: nat)
    returns (w': World)
    requires n < |stamps| && stamps[n] != "" && Reached(day, initial, stamps[..n], w)
    requires m in w.mem && m in w.basis && CheckVersionAndLastDs(day, w.Current(), w.mem[m]).None?
    ensures w' == Uploaded(w, m, w.mem[m][VERSION := stamps[n]])
    ensures Reached(day, initial, stamps[..n + 1], w')
  {
    w' := Uploaded(w, m, w.mem[m][VERSION := stamps[n]]);
    assert Does(day, w, w', Persist(m, stamps[n]));
    Then(day, initial, stamps[..n], w, w', Persist(m, stamps[n]));
    assert stamps[..n + 1] == stamps[..n] + [stamps[n]];
  }

  /** If a version comes back, a process that read it the first time can overwrite what was uploaded
      in between, as long as the clock goes on. */
  lemma RepeatedVersionLosesUpdate(day: Calendar, initial: Option<State>, stamps: seq<string>, i: nat, j: nat)
    requires DayReadable(day, initial) && forall s :: s in stamps ==> s != ""
    requires i < j < |stamps| && Clock(initial, stamps)[i] == Clock(initial, stamps)[j]
    ensures !LosesNoUpdate(day, initial, stamps)
  {
    var w1 := StartLeading(day, initial, stamps);
    var w2 := KeepLeading(day, initial, stamps, w1, 0, i);
    var w3 := SecondReads(day, initial, stamps, w2, i);
    var w4 := KeepLeading(day, initial, stamps, w3, i, j);
    assert stamps[j] in stamps;
    var w5 := SecondOverwrites(day, initial, stamps, w4, i, j);
  }

  lemma StartLeading(day: Calendar, initial: Option<State>, stamps: seq<string>) returns (w: World)
    requires DayReadable(day, initial)
    ensures Leading(day, initial, stamps, w, 0)
  {
    var w0 := Start(initial);
    assert IsRun(day, initial, [w0], []);
    assert Reached(day, initial, [], w0);
    w := w0.(mem := map[0 := StateOf(initial)], basis := map[0 := 0]);
    assert Does(day, w0, w, Sync(0));
    Then(day, initial, [], w0, w, Sync(0));
    assert stamps[..0] == [];
  }

  lemma SecondReads(day: Calendar, initial: Option<State>, stamps: seq<string>, w: World, i: nat) returns (w': World)
    requires Leading(day, initial, stamps, w, i)
    ensures Leading(day, initial, stamps, w', i) && w'.uploads == w.uploads
    ensures 1 in w'.mem && 1 in w'.basis && w'.basis[1] == i
    ensures Get(w'.mem[1], VERSION) == Clock(initial, stamps)[i]
    ensures Get(w'.mem[1], LAST_DS) == Get(StateOf(w'.Current()), LAST_DS)
  {
    w' := w.(mem := w.mem[1 := StateOf(w.Current())], basis := w.basis[1 := i]);
    assert Does(day, w, w', Sync(1));
    Then(day, initial, stamps[..i], w, w', Sync(1));
  }

  lemma SecondOverwrites(day: Calendar, initial: Option<State>, stamps: seq<string>, w: World, i: nat, j: nat)
    returns (w': World)
    requires Leading(day, initial, stamps, w, j) && i < j < |stamps| && stamps[j] != ""
    requires 1 in w.mem && 1 in w.basis && w.basis[1] == i
    requires Get(w.mem[1], VERSION) == Clock(initial, stamps)[j]
    requires Get(w.mem[1], LAST_DS) == Get(StateOf(w.Current()), LAST_DS)
    ensures !LosesNoUpdate(day, initial, stamps)
  {
    SameVersionPasses(day, w.Current(), w.mem[1]);
    w' := PersistsNext(day, initial, stamps, w, j, 1);
    assert w'.basedOn[j] == i && !NothingLost(w');
    LossIsReached(day, initial, stamps, w', j + 1);
  }

  lemma LossIsReached(day: Calendar, initial: Option<State>, stamps: seq<string>, w: World, n: nat)
    requires n <= |stamps| && Reached(day, initial, stamps[..n], w) && !NothingLost(w)
    ensures !LosesNoUpdate(day, initial, stamps)
  {
    var run: seq<World>, actions :|
      IsRun(day, initial, run, actions) && Stamps(actions) == stamps[..n] && run[|actions|] == w;
    assert Stamps(actions) <= stamps;
  }

  /** Exactly when no update can be lost: of the versions that the file has at first and gets by
      the clock, all but the last are different. */
  lemma NoUpdateIsLostIffStampsDiffer(day: Calendar, initial: Option<State>, stamps: seq<string>)
    requires DayReadable(day, initial) && forall s :: s in stamps ==> s != ""
    ensures LosesNoUpdate(day, initial, stamps) <==> Differ(Clock(initial, stamps), |stamps|)
  {
    if Differ(Clock(initial, stamps), |stamps|) {
      forall run: seq<World>, actions | IsRun(day, initial, run, actions) && Stamps(actions) <= stamps
        ensures NothingLost(run[|actions|])
      {
        NoLostUpdate(day, initial, run, actions, stamps, |actions|);
      }
    } else {
      var i, j :| 0 <= i < j < |stamps| && Clock(initial, stamps)[i] == Clock(initial, stamps)[j];
      RepeatedVersionLosesUpdate(day, initial, stamps, i, j);
    }
  }

  /** From an empty bucket: all readings but the last are different. */
  lemma NoUpdateIsLostFromEmptyBucket(day: Calendar, stamps: seq<string>)
    requires forall s :: s in stamps ==> s != ""
    ensures LosesNoUpdate(day, None, stamps) <==> forall i, j :: 0 <= i < j < |stamps| - 1 ==> stamps[i] != stamps[j]
  {
    NoUpdateIsLostIffStampsDiffer(day, None, stamps);
    var clock := Clock(None, stamps);
    assert forall i :: 0 <= i < |stamps| ==> clock[i + 1] == Some(stamps[i]);
    if Differ(clock, |stamps|) {
      forall i, j | 0 <= i < j < |stamps| - 1 ensures stamps[i] != stamps[j] {
        assert clock[i + 1] != clock[j + 1];
      }
    }
    if forall i, j :: 0 <= i < j < |stamps| - 1 ==> stamps[i] != stamps[j] {
      forall i, j | 0 <= i < j < |stamps| ensures clock[i] != clock[j] {
        if i > 0 {
          assert stamps[i - 1] != stamps[j - 1];
        }
      }
    }
  }

  /* ---- Every day can be stored ---- */

  /** These texts are days that follow each other. */
  ghost predicate AreConsecutive(day: Calendar, ds: seq<string>) {
    && (forall i :: 0 <= i < |ds| ==> ds[i] != "" && day(ds[i]).Some?)
    && (forall i :: 0 <= i < |ds| - 1 ==> day(ds[i + 1]).value == day(ds[i]).value + 1)
  }

  /** One process stores the first n days, and holds the last content. */
  ghost predicate StoredUpTo(day: Calendar, ds: seq<string>, stamps: seq<string>, w: World, n: nat) {
    && n <= |ds| == |stamps| && Reached(day, None, stamps[..n], w)
    && |w.uploads| == n && 0 in w.mem && 0 in w.basis && w.mem[0] == StateOf(w.Current())
    && w.first == None
    && forall g :: 0 <= g < n ==> Get(w.uploads[g], LAST_DS) == Some(ds[g])
  }

  lemma NextDayIsAccepted(day: Calendar, content: Option<State>, ds: string)
    requires ds != "" && day(ds).Some?
    requires content.Some? ==> HasDay(content.value) && day(content.value[LAST_DS]).Some?
    requires content.Some? ==> day(ds).value == day(content.value[LAST_DS]).value + 1
    ensures CheckVersionAndLastDs(day, content, StateOf(content)[LAST_DS := ds]).None?
  {
    assert VERSION[1] != LAST_DS[1];
    var mem := StateOf(content)[LAST_DS := ds];
    CheckDecides(day, content, mem);
    assert IsDecision(day, content, mem, None);
    DecisionIsUnique(day, content, mem, None, CheckVersionAndLastDs(day, content, mem));
  }

  lemma StoreNextDay(day: Calendar, ds: seq<string>, stamps: seq<string>, w: World, n: nat) returns (w': World)
    requires AreConsecutive(day, ds) && StoredUpTo(day, ds, stamps, w, n) && n < |ds| && stamps[n] != ""
    ensures StoredUpTo(day, ds, stamps, w', n + 1)
  {
    assert VERSION[1] != LAST_DS[1];
    var next := w.mem[0][LAST_DS := ds[n]];
    var edited := w.(mem := w.mem[0 := next]);
    assert Does(day, w, edited, Edit(0, next));
    Then(day, None, stamps[..n], w, edited, Edit(0, next));
    assert stamps[..n] + [] == stamps[..n];
    NextDayIsAccepted(day, w.Current(), ds[n]);
    w' := PersistsNext(day, None, stamps, edited, n, 0);
  }

  /** A process that is alone and moves the day on by one each time is never rejected: for any number of
      consecutive days there is a run in which they are all stored, one after the other. */
  lemma {:induction false} EveryDayCanBeStored(day: Calendar, ds: seq<string>, stamps: seq<string>, n: nat)
    returns (w: World)
    requires AreConsecutive(day, ds) && n <= |ds| == |stamps| && forall s :: s in stamps ==> s != ""
    ensures Reached(day, None, stamps[..n], w) && |w.uploads| == n
    ensures forall g :: 0 <= g < n ==> Get(w.uploads[g], LAST_DS) == Some(ds[g])
    ensures StoredUpTo(day, ds, stamps, w, n)
  {
    if n == 0 {
      var w0 := Start(None);
      assert IsRun(day, None, [w0], []) && Reached(day, None, [], w0);
      w := w0.(mem := map[0 := map[]], basis := map[0 := 0]);
      assert Does(day, w0, w, Sync(0));
      Then(day, None, [], w0, w, Sync(0));
      assert stamps[..0] == [] && [] + [] == stamps[..0];
    } else {
      var before := EveryDayCanBeStored(day, ds, stamps, n - 1);
      assert stamps[n - 1] in stamps;
      w := StoreNextDay(day, ds, stamps, before, n - 1);
    }
  }

  /* ---- Days ---- */

  /** From a content with a version and a day, the next content has the same day or the next one. */
  ghost predicate DayFollows(day: Calendar, before: Option<State>, after: Option<State>) {
    before.Some? && !Falsy(Get(before.value, VERSION)) && !Falsy(Get(before.value, LAST_DS)) ==>
      && after.Some? && LAST_DS in after.value
      && day(before.value[LAST_DS]).Some? && day(after.value[LAST_DS]).Some?
      && 0 <= day(after.value[LAST_DS]).value - day(before.value[LAST_DS]).value <= 1
  }

  /** In every run, whatever the stamps, no day is skipped or taken back between consecutive
      contents of the file, once it carries a version and a day. */
  lemma {:induction false} NoDaySkipped(
    day: Calendar, initial: Option<State>, run: seq<World>, actions: seq<Action>, n: nat, g: nat)
    requires IsRun(day, initial, run, actions) && n <= |actions| && g < |run[n].uploads|
    ensures DayFollows(day, run[n].Content(g), run[n].Content(g + 1))
  {
    if n > 0 {
      var k := n - 1;
      assert Does(day, run[k], run[k + 1], actions[k]);
      if g < |run[k].uploads| {
        NoDaySkipped(day, initial, run, actions, k, g);
      }
    }
  }
}
