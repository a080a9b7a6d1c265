/** CsvItemExporter in cli/polygonetl/exporters.py: any number of threads export at once and the
    first one writes the header line, by double-checked locking. Every call of export_item is an
    actor of its own; a thread that makes several calls only orders some of them. */
module CsvHeader {
  import opened Common

  /** An item to export: its field names in order, and their values. */
  datatype Item = Item(keys: seq<string>, value: map<string, string>)

  /** What the file is made of. */
  datatype Line = Header(names: seq<string>) | Row(call: nat, values: seq<string>)

  datatype Pc =
    | Start
    | Acquire
    | Recheck
    | SetFields
    | WriteHeader
    | ClearFlag
    | Release
    | ReadFields
    | WriteRow(columns: seq<string>)
    | Done
    | Raised

  /** The item of every call, and how the exporter is configured. */
  datatype Config = Config(items: seq<Item>, includeHeadersLine: bool, configured: Option<seq<string>>)

  datatype State = State(
    headersNotWritten: bool,
    fieldsToExport: Option<seq<string>>,
    lock: Option<nat>,
    file: seq<Line>,
    pcs: seq<Pc>)

  function Initial(c: Config): State {
    State(true, c.configured, None, [], seq(|c.items|, i => Start))
  }

  /** One value for every column, empty if the item has no such field. */
  function RowValues(item: Item, columns: seq<string>): seq<string> {
    seq(|columns|, i requires 0 <= i < |columns| => if columns[i] in item.value then item.value[columns[i]] else "")
  }

  /** `not self.fields_to_export` */
  predicate Falsy(fields: Option<seq<string>>) {
    fields.None? || fields.value == []
  }

  predicate InCriticalSection(pc: Pc) {
    pc.Recheck? || pc.SetFields? || pc.WriteHeader? || pc.ClearFlag? || pc.Release?
  }

  predicate IsActor(c: Config, s: State, t: nat) {
    t < |c.items| == |s.pcs|
  }

  predicate CanStep(c: Config, s: State, t: nat) {
    && IsActor(c, s, t)
    && !s.pcs[t].Done? && !s.pcs[t].Raised?
    && (s.pcs[t].Acquire? ==> s.lock.None?)
    && (s.pcs[t].WriteHeader? ==> s.fieldsToExport.Some?)
  }

  /** What call t does next. */
  function Step(c: Config, s: State, t: nat): State
    requires CanStep(c, s, t)
  {
    match s.pcs[t]
    case Start => s.(pcs := s.pcs[t := if s.headersNotWritten then Acquire else ReadFields])
    case Acquire => s.(lock := Some(t), pcs := s.pcs[t := Recheck])
    case Recheck =>
      s.(pcs := s.pcs[t := if !s.headersNotWritten then Release
                           else if c.includeHeadersLine then SetFields else ClearFlag])
    case SetFields =>
      s.(fieldsToExport := if Falsy(s.fieldsToExport) then Some(c.items[t].keys) else s.fieldsToExport,
         pcs := s.pcs[t := WriteHeader])
    case WriteHeader => s.(file := s.file + [Header(s.fieldsToExport.value)], pcs := s.pcs[t := ClearFlag])
    case ClearFlag => s.(headersNotWritten := false, pcs := s.pcs[t := Release])
    case Release => s.(lock := None, pcs := s.pcs[t := ReadFields])
    case ReadFields =>
      s.(pcs := s.pcs[t := WriteRow(if s.fieldsToExport.None? then c.items[t].keys else s.fieldsToExport.value)])
    case WriteRow(columns) => s.(file := s.file + [Row(t, RowValues(c.items[t], columns))], pcs := s.pcs[t := Done])
    case _ => s
  }

  /** Anything that can raise does so before it has changed something; the lock is given back. */
  predicate CanRaise(c: Config, s: State, t: nat) {
    IsActor(c, s, t) && (s.pcs[t].SetFields? || s.pcs[t].WriteHeader? || s.pcs[t].ReadFields? || s.pcs[t].WriteRow?)
  }

  function Raise(c: Config, s: State, t: nat): State
    requires CanRaise(c, s, t)
  {
    s.(lock := if InCriticalSection(s.pcs[t]) then None else s.lock, pcs := s.pcs[t := Raised])
  }

  predicate Moves(c: Config, s: State, t: nat, s': State) {
    (CanStep(c, s, t) && s' == Step(c, s, t)) || (CanRaise(c, s, t) && s' == Raise(c, s, t))
  }

  ghost predicate Next(c: Config, s: State, s': State) {
    exists t: nat :: Moves(c, s, t, s')
  }

  ghost predicate IsRun(c: Config, run: seq<State>) {
    && |run| > 0
    && run[0] == Initial(c)
    && (forall i :: 0 <= i < |run| - 1 ==> Next(c, run[i], run[i + 1]))
  }

  /* ---- What every step keeps ---- */

  /** The lock is held exactly by the call between acquire and release. */
  ghost predicate MutualExclusion(c: Config, s: State) {
    && |s.pcs| == |c.items|
    && (s.lock.Some? ==> s.lock.value < |s.pcs|)
    && (forall t :: 0 <= t < |s.pcs| ==> (InCriticalSection(s.pcs[t]) <==> s.lock == Some(t)))
  }

  /** The line holds, column by column, the item's value of that name, or nothing if it has none. */
  ghost predicate IsRowOf(c: Config, line: Line, columns: seq<string>) {
    && line.Row? && line.call < |c.items| && |line.values| == |columns|
    && forall k :: 0 <= k < |columns| ==>
         (var item := c.items[line.call];
          line.values[k] == if columns[k] in item.value then item.value[columns[k]] else "")
  }

  /** The file starts with the header, if it has been started, and rows follow. */
  ghost predicate WellFormedFile(c: Config, s: State) {
    && (s.file != [] ==> s.fieldsToExport.Some? && s.file[0] == Header(s.fieldsToExport.value))
    && (s.file != [] ==> ColumnsAreRight(c, s.fieldsToExport))
    && (forall i :: 1 <= i < |s.file| ==> IsRowOf(c, s.file[i], s.fieldsToExport.value))
  }

  /** The columns are the configured ones or, if there are none, the field names of an item. */
  ghost predicate ColumnsAreRight(c: Config, fields: Option<seq<string>>) {
    if !Falsy(c.configured) then fields == c.configured
    else exists t :: 0 <= t < |c.items| && fields == Some(c.items[t].keys)
  }

  ghost predicate HeaderIsDue(c: Config, s: State, pc: Pc) {
    match pc
    case SetFields => s.headersNotWritten && s.file == []
    case WriteHeader => s.headersNotWritten && s.file == [] && ColumnsAreRight(c, s.fieldsToExport)
    case ClearFlag => s.headersNotWritten && s.file != []
    case Release | ReadFields | Done => !s.headersNotWritten
    case WriteRow(columns) => !s.headersNotWritten && s.fieldsToExport == Some(columns)
    case _ => true
  }

  /** What holds between the flag, the file and every call, with headers enabled. */
  ghost predicate WithHeader(c: Config, s: State) {
    && WellFormedFile(c, s)
    && (!s.headersNotWritten ==> s.file != [])
    && (s.headersNotWritten && s.file != [] ==>
          s.lock.Some? && s.lock.value < |s.pcs| && s.pcs[s.lock.value].ClearFlag?)
    && (forall t :: 0 <= t < |s.pcs| ==> HeaderIsDue(c, s, s.pcs[t]))
  }

  /** Before they are set, the columns are the configured ones. */
  ghost predicate FieldsAreRight(c: Config, s: State) {
    && (s.fieldsToExport == c.configured || ColumnsAreRight(c, s.fieldsToExport))
    && (forall t :: 0 <= t < |s.pcs| && s.pcs[t].WriteHeader? ==> s.fieldsToExport.Some?)
  }

  /** With headers disabled, the fields stay as configured and no header is written. */
  ghost predicate WithoutHeader(c: Config, s: State) {
    && |s.pcs| == |c.items|
    && s.fieldsToExport == c.configured
    && (forall t :: 0 <= t < |s.pcs| ==> !s.pcs[t].SetFields? && !s.pcs[t].WriteHeader?)
    && (forall t :: 0 <= t < |s.pcs| && s.pcs[t].WriteRow? ==> s.pcs[t].columns == OwnColumns(c, t))
    && (forall i :: 0 <= i < |s.file| ==>
          (s.file[i].Row? && s.file[i].call < |c.items| && IsRowOf(c, s.file[i], OwnColumns(c, s.file[i].call))))
  }

  function OwnColumns(c: Config, t: nat): seq<string>
    requires t < |c.items|
  {
    if c.configured.None? then c.items[t].keys else c.configured.value
  }

  function RowsOf(t: nat, file: seq<Line>): nat {
    if file == [] then 0
    else RowsOf(t, file[..|file| - 1]) + (if file[|file| - 1].Row? && file[|file| - 1].call == t then 1 else 0)
  }

  ghost predicate RowsCounted(s: State) {
    forall t :: 0 <= t < |s.pcs| ==> RowsOf(t, s.file) == if s.pcs[t].Done? then 1 else 0
  }

  ghost predicate Inv(c: Config, s: State) {
    && MutualExclusion(c, s)
    && (c.includeHeadersLine ==> WithHeader(c, s))
    && (!c.includeHeadersLine ==> WithoutHeader(c, s))
    && FieldsAreRight(c, s)
    && RowsCounted(s)
  }

  lemma MutualExclusionKept(c: Config, s: State, t: nat, s': State)
    requires MutualExclusion(c, s) && Moves(c, s, t, s')
    ensures MutualExclusion(c, s')
  {
  }

  /** With headers enabled, no move breaks what ties the flag to the file. */
  lemma WithHeaderKept(c: Config, s: State, t: nat, s': State)
    requires MutualExclusion(c, s) && WithHeader(c, s) && FieldsAreRight(c, s)
    requires Moves(c, s, t, s') && c.includeHeadersLine
    ensures WithHeader(c, s')
  {
    assert HeaderIsDue(c, s, s.pcs[t]);
    forall u | 0 <= u < |s.pcs| && u != t ensures HeaderIsDue(c, s', s.pcs[u]) {
      assert HeaderIsDue(c, s, s.pcs[u]);
      assert InCriticalSection(s.pcs[u]) <==> s.lock == Some(u);
    }
  }

  lemma FieldsAreRightKept(c: Config, s: State, t: nat, s': State)
    requires FieldsAreRight(c, s) && Moves(c, s, t, s')
    ensures FieldsAreRight(c, s')
  {
  }

  lemma WithoutHeaderKept(c: Config, s: State, t: nat, s': State)
    requires WithoutHeader(c, s) && Moves(c, s, t, s') && !c.includeHeadersLine
    ensures WithoutHeader(c, s')
  {
    assert s'.fieldsToExport == s.fieldsToExport;
    forall u | 0 <= u < |s'.pcs| && s'.pcs[u].WriteRow? ensures s'.pcs[u].columns == OwnColumns(c, u) {
    }
    forall i | 0 <= i < |s'.file|
      ensures s'.file[i].Row? && s'.file[i].call < |c.items| && IsRowOf(c, s'.file[i], OwnColumns(c, s'.file[i].call))
    {
    }
  }

  lemma RowsOfOneMore(t: nat, file: seq<Line>, line: Line)
    ensures RowsOf(t, file + [line]) == RowsOf(t, file) + (if line.Row? && line.call == t then 1 else 0)
  {
    assert (file + [line])[..|file|] == file;
  }

  lemma RowsCountedKept(c: Config, s: State, t: nat, s': State)
    requires |s.pcs| == |c.items| && RowsCounted(s) && Moves(c, s, t, s')
    ensures RowsCounted(s')
  {
    if s'.file != s.file {
      LineIsOwn(c, s, t, s');
      forall u | 0 <= u < |s'.pcs| ensures RowsOf(u, s'.file) == if s'.pcs[u].Done? then 1 else 0 {
        RowsOfOneMore(u, s.file, s'.file[|s'.file| - 1]);
        assert RowsOf(u, s.file) == if s.pcs[u].Done? then 1 else 0;
      }
    } else {
      assert s'.pcs[t].Done? == s.pcs[t].Done?;
    }
  }

  /** A move that writes, writes one line; a row is the last thing a call writes. */
  lemma LineIsOwn(c: Config, s: State, t: nat, s': State)
    requires Moves(c, s, t, s') && s'.file != s.file
    ensures s'.file == s.file + [s'.file[|s'.file| - 1]] && s'.pcs == s.pcs[t := s'.pcs[t]] && !s.pcs[t].Done?
    ensures s'.pcs[t].Done? <==> s'.file[|s'.file| - 1].Row?
    ensures s'.file[|s'.file| - 1].Row? ==> s'.file[|s'.file| - 1].call == t
  {
  }

  lemma NextKeeps(c: Config, s: State, s': State)
    requires Inv(c, s) && Next(c, s, s')
    ensures Inv(c, s')
  {
    var t: nat :| Moves(c, s, t, s');
    MutualExclusionKept(c, s, t, s');
    if c.includeHeadersLine {
      WithHeaderKept(c, s, t, s');
    } else {
      WithoutHeaderKept(c, s, t, s');
    }
    FieldsAreRightKept(c, s, t, s');
    RowsCountedKept(c, s, t, s');
  }

  lemma {:induction false} RunKeeps(c: Config, run: seq<State>, i: nat)
    requires IsRun(c, run) && i < |run|
    ensures Inv(c, run[i])
  {
    if i > 0 {
      RunKeeps(c, run, i - 1);
      assert Next(c, run[i - 1], run[i - 1 + 1]);
      NextKeeps(c, run[i - 1], run[i]);
    }
  }

  /* ---- The promises ---- */

  /** With headers enabled: whatever the interleaving, the file is empty or one header line and
      then rows, each with exactly the header's columns; and it has its header before any call
      returns. */
  lemma OneHeaderThenRows(c: Config, run: seq<State>, i: nat)
    requires IsRun(c, run) && i < |run| && c.includeHeadersLine
    ensures var file := run[i].file;
            file != [] ==>
              file[0].Header? && forall j :: 1 <= j < |file| ==> IsRowOf(c, file[j], file[0].names)
    ensures forall t :: 0 <= t < |run[i].pcs| && run[i].pcs[t].Done? ==> run[i].file != []
  {
    RunKeeps(c, run, i);
    forall t | 0 <= t < |run[i].pcs| && run[i].pcs[t].Done? ensures run[i].file != [] {
      assert HeaderIsDue(c, run[i], run[i].pcs[t]);
    }
  }

  /** The header is the configured list or, if that is missing or empty, the field names of one of
      the items. */
  lemma HeaderNames(c: Config, run: seq<State>, i: nat)
    requires IsRun(c, run) && i < |run| && c.includeHeadersLine && run[i].file != []
    ensures run[i].file[0].Header?
    ensures !Falsy(c.configured) ==> run[i].file[0].names == c.configured.value
    ensures Falsy(c.configured) ==> exists t :: 0 <= t < |c.items| && run[i].file[0].names == c.items[t].keys
  {
    RunKeeps(c, run, i);
  }

  /** With headers disabled there are only rows, in the configured columns or else the item's own. */
  lemma OnlyRowsWithoutHeader(c: Config, run: seq<State>, i: nat)
    requires IsRun(c, run) && i < |run| && !c.includeHeadersLine
    ensures forall j :: 0 <= j < |run[i].file| ==>
              (run[i].file[j].Row? && run[i].file[j].call < |c.items|
               && IsRowOf(c, run[i].file[j], OwnColumns(c, run[i].file[j].call)))
  {
    RunKeeps(c, run, i);
  }

  /** Every call that returned has written one row, every other call none. */
  lemma EveryItemOnce(c: Config, run: seq<State>, i: nat, t: nat)
    requires IsRun(c, run) && i < |run| && t < |c.items|
    ensures |run[i].pcs| == |c.items|
    ensures RowsOf(t, run[i].file) == if run[i].pcs[t].Done? then 1 else 0
  {
    RunKeeps(c, run, i);
  }

  /** Until all calls have returned or raised one of them can go on, also after a failed header:
      the lock is never left behind. */
  lemma NeverStuck(c: Config, run: seq<State>, i: nat, t: nat)
    requires IsRun(c, run) && i < |run| && t < |c.items|
    ensures |run[i].pcs| == |c.items|
    ensures run[i].pcs[t].Done? || run[i].pcs[t].Raised? || exists u: nat :: CanStep(c, run[i], u)
  {
    RunKeeps(c, run, i);
    if run[i].lock.Some? {
      assert CanStep(c, run[i], run[i].lock.value);
    } else if !run[i].pcs[t].Done? && !run[i].pcs[t].Raised? {
      assert CanStep(c, run[i], t);
    }
  }
}
