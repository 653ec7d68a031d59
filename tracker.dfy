/**
 * The productivity tracker's component state and the handlers that change
 * it: editing one count, resetting, importing an extracted report, the
 * effect that forgets the server name once no positive count is left, and
 * the per-task totals with the effort and points they add up to.
 */
module Tracker {
  import opened Common
  import opened JsText
  import opened Catalog
  import opened Period
  import opened Store
  import opened Normalizer

  /** The integer part of the settings; the daily effort goal is a fraction and is not modelled. */
  datatype Settings = Settings(
    daysWorked: int,
    filterStart: Period,
    filterEnd: Period,
    isFilterActive: bool,
    serverName: string)

  /** The range filter the settings select. */
  function FilterOf(s: Settings): Filter {
    Filter(s.isFilterActive, PeriodValue(s.filterStart), PeriodValue(s.filterEnd))
  }

  /** The component's state as one value, for stating what several handler calls do together. */
  datatype State = State(data: Data, settings: Settings, activeYear: int, importError: Option<string>)

  /** The counts a first start shows when nothing was saved: February 2026. */
  function SeedData(): Data {
    map["2026-fev" := map[1 := 11, 2 := 1, 4 := 16, 10 := 13, 13 := 1, 14 := 24, 15 := 1, 292 := 38, 30 := 26,
                          31 := 24, 33 := 39, 37 := 23, 38 := 10, 39 := 27, 40 := 114, 44 := 41, 48 := 3, 49 := 41]]
  }

  /** Settings on a first start: the filter spans fev/2026 to dez/2026 and is off, no server name. */
  function DefaultSettings(daysWorked: int): Settings {
    Settings(daysWorked, Period(2026, "fev"), Period(2026, "dez"), false, "")
  }

  // ---------------------------------------------------------------- import as a state transition

  /** `result.year || activeYear`: a missing or zero year falls back to the year on screen. */
  function ImportYear(x: Extracted, activeYear: int): int {
    if x.year.Some? && x.year.value != 0 then x.year.value else activeYear
  }

  /** `result.serverName || serverName`: an empty or missing name keeps the current one. */
  function ImportName(x: Extracted, current: string): string {
    if x.serverName.Some? && x.serverName.value != "" then x.serverName.value else current
  }

  /** What a decoded import does to the state: a failure records its message, a record is merged. */
  function Applied(s: State, res: Result<Extracted, ImportFailure>): State {
    if res.Failure? then
      s.(importError := Some(Message(res.error)))
    else
      var x := res.value;
      State(Merge(s.data, EncodeKey(ImportYear(x, s.activeYear), x.month), x.entries),
            s.settings.(serverName := ImportName(x, s.settings.serverName)),
            ImportYear(x, s.activeYear),
            None)
  }

  /** What one import reply does to the state. */
  function Imported(s: State, reply: Reply, parse: string -> Option<Response>): State {
    Applied(s, Decode(reply, parse))
  }

  /** A rejected reply only records its message: the counts, the settings and the year stay. */
  lemma ImportFailureKeepsState(s: State, reply: Reply, parse: string -> Option<Response>)
    requires Decode(reply, parse).Failure?
    ensures Imported(s, reply, parse).data == s.data
    ensures Imported(s, reply, parse).settings == s.settings
    ensures Imported(s, reply, parse).activeYear == s.activeYear
    ensures Imported(s, reply, parse).importError == Some(Message(Decode(reply, parse).error))
  {
  }

  /**
   * An accepted reply overwrites the imported tasks of its period and leaves
   * every other cell; the name and the year change only when the reply
   * supplies them, and no error is left.
   */
  lemma ImportSuccessMerges(s: State, reply: Reply, parse: string -> Option<Response>)
    requires Decode(reply, parse).Success?
    ensures var x, t := Decode(reply, parse).value, Imported(s, reply, parse);
            var key := EncodeKey(ImportYear(x, s.activeYear), x.month);
            && t.data.Keys == s.data.Keys + {key}
            && (forall i :: i in x.entries ==> Count(t.data, key, i) == x.entries[i])
            && (forall k, i :: (k != key || i !in x.entries) ==> Count(t.data, k, i) == Count(s.data, k, i))
            && t.importError == None
    ensures var x, t := Decode(reply, parse).value, Imported(s, reply, parse);
            && (x.year.Some? && x.year.value != 0 ==> t.activeYear == x.year.value)
            && (x.year.None? || x.year.value == 0 ==> t.activeYear == s.activeYear)
            && (x.serverName.Some? && x.serverName.value != "" ==> t.settings.serverName == x.serverName.value)
            && (x.serverName.None? || x.serverName.value == "" ==> t.settings.serverName == s.settings.serverName)
            && t.settings.(serverName := s.settings.serverName) == s.settings
  {
    var x := Decode(reply, parse).value;
    MergeFrame(s.data, EncodeKey(ImportYear(x, s.activeYear), x.month), x.entries);
  }

  /** Importing the same reply twice leaves the state as importing it once. */
  lemma ImportIdempotent(s: State, reply: Reply, parse: string -> Option<Response>)
    ensures Imported(Imported(s, reply, parse), reply, parse) == Imported(s, reply, parse)
  {
    AppliedIdempotent(s, Decode(reply, parse));
  }

  lemma AppliedIdempotent(s: State, res: Result<Extracted, ImportFailure>)
    ensures Applied(Applied(s, res), res) == Applied(s, res)
  {
    if res.Success? {
      var x := res.value;
      var t := Applied(s, res);
      assert ImportYear(x, t.activeYear) == ImportYear(x, s.activeYear);
      MergeIdempotent(s.data, EncodeKey(ImportYear(x, s.activeYear), x.month), x.entries);
    }
  }

  // ---------------------------------------------------------------- the server-name effect

  /** The effect run after every change of the counts: no positive count left means no server name. */
  function ClearedName(s: State): State {
    if !HasAnyData(s.data) && s.settings.serverName != "" then s.(settings := s.settings.(serverName := "")) else s
  }

  /** An accepted import always leaves a positive count, so the effect that follows keeps the imported name. */
  lemma ImportKeepsName(s: State, reply: Reply, parse: string -> Option<Response>)
    requires Decode(reply, parse).Success?
    ensures HasAnyData(Imported(s, reply, parse).data)
    ensures ClearedName(Imported(s, reply, parse)) == Imported(s, reply, parse)
  {
    AppliedKeepsName(s, Decode(reply, parse).value);
  }

  lemma AppliedKeepsName(s: State, x: Extracted)
    requires |x.entries| > 0 && forall id :: id in x.entries ==> x.entries[id] > 0
    ensures HasAnyData(Applied(s, Success(x)).data)
    ensures ClearedName(Applied(s, Success(x))) == Applied(s, Success(x))
  {
    var key := EncodeKey(ImportYear(x, s.activeYear), x.month);
    NoMemberIsEmpty(x.entries.Keys);
    var id :| id in x.entries.Keys;
    MergeFrame(s.data, key, x.entries);
    var d := Applied(s, Success(x)).data;
    assert key in d && id in d[key] && d[key][id] > 0;
  }

  lemma NoMemberIsEmpty(ids: set<int>)
    ensures (forall id :: id !in ids) ==> ids == {}
  {
    if forall id :: id !in ids {
      assert ids == {};
    }
  }

  /** The effect never touches the counts, and it clears the name exactly when no positive count is left. */
  lemma ClearedNameOutcome(s: State)
    ensures ClearedName(s).data == s.data && ClearedName(s).activeYear == s.activeYear
    ensures ClearedName(s).importError == s.importError
    ensures ClearedName(s).settings.(serverName := s.settings.serverName) == s.settings
    ensures ClearedName(s).settings.serverName == "" <==> !HasAnyData(s.data) || s.settings.serverName == ""
  {
  }

  /** The seed's one period is fev/2026, stored under the key the editor builds for it. */
  lemma SeedKey()
    ensures SeedData().Keys == {EncodeKey(2026, "fev")}
  {
    YearText();
    SeedHasOnePeriod();
  }

  lemma YearText()
    ensures EncodeKey(2026, "fev") == "2026-fev"
  {
    DigitsOf2026();
  }

  lemma DigitsOf2026()
    ensures IntToString(2026) == "2026"
  {
    assert NatToString(2) == "2";
    assert NatToString(20) == "20";
    assert NatToString(202) == "202";
  }

  lemma SeedHasOnePeriod()
    ensures SeedData().Keys == {"2026-fev"}
  {
  }

  /** With the filter off, a seeded task's total is its seeded count and an unseeded task's total is 0. */
  lemma SeedTotals(f: Filter)
    requires !f.active
    ensures TaskTotal(SeedData(), 40, f) == 114
    ensures TaskTotal(SeedData(), 3, f) == 0
  {
    SeedHasOnePeriod();
    SeedCells();
    ColumnSumSingle(SeedData(), "2026-fev", 40, f);
    ColumnSumSingle(SeedData(), "2026-fev", 3, f);
  }

  lemma SeedCells()
    ensures Count(SeedData(), "2026-fev", 40) == 114 && Count(SeedData(), "2026-fev", 3) == 0
  {
  }

  // ---------------------------------------------------------------- totals after a reset

  /** An empty store totals 0 for every task, so the effort and the points are 0 as well. */
  lemma ResetTotals(f: Filter, tasks: seq<Task>, ids: set<int>)
    requires forall k :: 0 <= k < |tasks| ==> tasks[k].id in ids
    ensures forall id, g :: TaskTotal(map[], id, g) == 0
    ensures Effort(Totals(map[], f, ids), tasks) == 0 && PointsTenths(Totals(map[], f, ids), tasks) == 0
  {
    EmptyStoreTotals();
    ZeroTotalsZeroEffort(Totals(map[], f, ids), tasks);
  }

  lemma EmptyStoreTotals()
    ensures forall id, g :: TaskTotal(map[], id, g) == 0
  {
    var empty: Data := map[];
    assert empty.Keys == {};
    forall id, g ensures TaskTotal(empty, id, g) == 0 {
    }
  }

  // ---------------------------------------------------------------- the component

  class App {
    var data: Data
    var settings: Settings
    var activeYear: int
    var importError: Option<string>

    function Snapshot(): State
      reads this
    {
      State(data, settings, activeYear, importError)
    }

    /** A first start with nothing saved; the days worked come from the calendar and are a parameter here. */
    constructor (daysWorked: int)
      ensures data == SeedData() && settings == DefaultSettings(daysWorked)
      ensures activeYear == 2026 && importError == None
    {
      data := SeedData();
      settings := DefaultSettings(daysWorked);
      activeYear := 2026;
      importError := None;
    }

    /** Typing `value` into the cell of `taskId` in the period `year`-`month`. */
    method SetValue(year: int, month: string, taskId: int, value: string)
      modifies this
      ensures data == SetCount(old(data), EncodeKey(year, month), taskId, ParseIntOrZero(value))
      ensures Count(data, EncodeKey(year, month), taskId) == ParseIntOrZero(value)
      ensures forall k, i :: (k != EncodeKey(year, month) || i != taskId) ==> Count(data, k, i) == Count(old(data), k, i)
      ensures settings == old(settings) && activeYear == old(activeYear) && importError == old(importError)
    {
      var numValue := ParseIntOrZero(value);
      var key := EncodeKey(year, month);
      data := data[key := RowOf(data, key)[taskId := numValue]];
      SetCountFrame(old(data), key, taskId, numValue);
    }

    /** Clears every count, the server name and the filter switch; the other settings stay. */
    method Reset()
      modifies this
      ensures data == map[]
      ensures settings == old(settings).(serverName := "", isFilterActive := false)
      ensures activeYear == old(activeYear) && importError == old(importError)
      ensures forall id, f :: TaskTotal(data, id, f) == 0
    {
      data := map[];
      settings := settings.(serverName := "", isFilterActive := false);
      EmptyStoreTotals();
    }

    /** The effect that follows every change of the counts. */
    method ClearNameWhenNoData()
      modifies this
      ensures Snapshot() == ClearedName(old(Snapshot()))
    {
      if !HasAnyData(data) && settings.serverName != "" {
        settings := settings.(serverName := "");
      }
    }

    /** Handles the extraction service's reply: read it, then merge the record or record the failure. */
    method ApplyImport(reply: Reply, parse: string -> Option<Response>)
      modifies this
      ensures Snapshot() == Imported(old(Snapshot()), reply, parse)
    {
      var res := Extract(reply, parse);
      ApplyResult(res);
    }

    /** Records a failed import's message, or merges an accepted record into the period it names. */
    method ApplyResult(res: Result<Extracted, ImportFailure>)
      modifies this
      ensures Snapshot() == Applied(old(Snapshot()), res)
    {
      importError := None;
      if res.Failure? {
        importError := Some(Message(res.error));
        return;
      }
      var x := res.value;
      var key := EncodeKey(ImportYear(x, activeYear), x.month);
      data := data[key := RowOf(data, key) + x.entries];
      settings := settings.(serverName := ImportName(x, settings.serverName));
      activeYear := ImportYear(x, activeYear);
    }

    /** One task's column: the sum of its counts over the stored periods the filter admits, visited in any order. */
    method ColumnTotal(id: int, f: Filter) returns (sum: int)
      ensures sum == TaskTotal(data, id, f)
    {
      sum := 0;
      var remaining := data.Keys;
      while remaining != {}
        invariant remaining <= data.Keys
        invariant sum + ColumnSum(data, remaining, id, f) == TaskTotal(data, id, f)
        decreases remaining
      {
        var key :| key in remaining;
        ColumnSumRemove(data, remaining, key, id, f);
        if Counted(f, key) {
          sum := sum + Count(data, key, id);
        }
        remaining := remaining - {key};
      }
    }

    /** One entry per listed task, holding that task's column total. */
    method TotalsOf(tasks: seq<Task>, f: Filter) returns (totals: map<int, int>)
      ensures totals.Keys == IdsOf(tasks)
      ensures forall id :: id in totals ==> totals[id] == TaskTotal(data, id, f)
    {
      totals := map[];
      var i := 0;
      while i < |tasks|
        invariant 0 <= i <= |tasks|
        invariant totals.Keys == IdsOf(tasks[..i])
        invariant forall id :: id in totals ==> totals[id] == TaskTotal(data, id, f)
      {
        var sum := ColumnTotal(tasks[i].id, f);
        totals := totals[tasks[i].id := sum];
        IdsOfExtend(tasks, i);
        i := i + 1;
      }
      assert tasks[..i] == tasks;
    }

    /** `taskTotals`: each catalog task's total under the filter the settings select. */
    method TaskTotals() returns (totals: map<int, int>)
      ensures totals == Totals(data, FilterOf(settings), CatalogIds())
    {
      totals := TotalsOf(TASKS, FilterOf(settings));
    }

    /** The sum of all task totals. */
    method TotalEffort() returns (effort: int)
      ensures effort == Effort(Totals(data, FilterOf(settings), CatalogIds()), TASKS)
    {
      var totals := TaskTotals();
      CatalogListsAll();
      effort := Effort(totals, TASKS);
    }

    /** Each task's total times its unit value, in tenths of a point. */
    method TotalPointsTenths() returns (points: int)
      ensures points == PointsTenths(Totals(data, FilterOf(settings), CatalogIds()), TASKS)
    {
      var totals := TaskTotals();
      CatalogListsAll();
      points := PointsTenths(totals, TASKS);
    }
  }

  lemma IdsOfExtend(tasks: seq<Task>, i: int)
    requires 0 <= i < |tasks|
    ensures IdsOf(tasks[..i + 1]) == IdsOf(tasks[..i]) + {tasks[i].id}
  {
    assert tasks[..i + 1][i] == tasks[i];
  }

  lemma CatalogListsAll()
    ensures forall k :: 0 <= k < |TASKS| ==> TASKS[k].id in CatalogIds()
  {
  }
}
