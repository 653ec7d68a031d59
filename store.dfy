/**
 * The productivity store: period key -> task id -> count, read with
 * "absent counts as 0", its two writes (a point update and an overwriting
 * merge), and the per-task column sums the totals compute, optionally
 * restricted to an inclusive range of period values.
 */
module Store {
  import opened Common
  import opened Period
  import opened Catalog

  type Row = map<int, int>
  type Data = map<string, Row>

  /** `prev[key] || {}`. */
  function RowOf(d: Data, key: string): Row {
    if key in d then d[key] else map[]
  }

  /** `data[key][id] || 0`: an absent period or an absent task reads as 0. */
  function Count(d: Data, key: string, id: int): (n: int)
    ensures key !in d || id !in d[key] ==> n == 0
    ensures key in d && id in d[key] ==> n == d[key][id]
  {
    if key in d && id in d[key] then d[key][id] else 0
  }

  /** `{...prev, [key]: {...(prev[key] || {}), [id]: n}}`. */
  function SetCount(d: Data, key: string, id: int, n: int): Data {
    d[key := RowOf(d, key)[id := n]]
  }

  /** A point update makes the cell read `n` and leaves every other cell, every other row and every other task of the row as it was. */
  lemma SetCountFrame(d: Data, key: string, id: int, n: int)
    ensures SetCount(d, key, id, n).Keys == d.Keys + {key}
    ensures Count(SetCount(d, key, id, n), key, id) == n
    ensures forall k, i :: (k != key || i != id) ==> Count(SetCount(d, key, id, n), k, i) == Count(d, k, i)
    ensures forall k :: k in d && k != key ==> SetCount(d, key, id, n)[k] == d[k]
    ensures SetCount(d, key, id, n)[key].Keys == RowOf(d, key).Keys + {id}
  {
  }

  /** `{...prev, [key]: {...(prev[key] || {}), ...entries}}`: the imported counts overwrite, they are not added. */
  function Merge(d: Data, key: string, entries: Row): Data {
    d[key := RowOf(d, key) + entries]
  }

  /** After a merge, an imported task reads its imported count and every other cell reads what it read before. */
  lemma MergeFrame(d: Data, key: string, entries: Row)
    ensures Merge(d, key, entries).Keys == d.Keys + {key}
    ensures forall i :: i in entries ==> Count(Merge(d, key, entries), key, i) == entries[i]
    ensures forall k, i :: (k != key || i !in entries) ==> Count(Merge(d, key, entries), k, i) == Count(d, k, i)
    ensures Merge(d, key, entries)[key].Keys == RowOf(d, key).Keys + entries.Keys
  {
  }

  /** Merging the same record twice leaves the store as merging it once. */
  lemma MergeIdempotent(d: Data, key: string, entries: Row)
    ensures Merge(Merge(d, key, entries), key, entries) == Merge(d, key, entries)
  {
    var once := Merge(d, key, entries);
    assert RowOf(once, key) + entries == RowOf(once, key);
  }

  /** Some period holds a strictly positive count for some task id. */
  predicate HasAnyData(d: Data) {
    exists k, i :: k in d && i in d[k] && d[k][i] > 0
  }

  // ---------------------------------------------------------------- column sums

  /** The range filter of the totals: when active, only keys whose period value lies in `start..end` (both included) count. */
  datatype Filter = Filter(active: bool, start: int, end: int)

  predicate Counted(f: Filter, key: string) {
    var v := KeyPeriodValue(key);
    !f.active || (v.Some? && f.start <= v.value && v.value <= f.end)
  }

  /** What one store key adds to a task's total. */
  function Contribution(d: Data, key: string, id: int, f: Filter): int {
    if Counted(f, key) then Count(d, key, id) else 0
  }

  /** A key built from a period is counted exactly when the filter is off or the period's value lies within the bounds, both included. */
  lemma CountedEncodedKey(year: int, month: string, f: Filter)
    requires year >= 0 && '-' !in month
    ensures Counted(f, EncodeKey(year, month)) <==>
              !f.active || (f.start <= PeriodValue(Period(year, month)) && PeriodValue(Period(year, month)) <= f.end)
  {
    EncodedKeyValue(year, month);
  }

  /** The sum of a task's contributions over a set of keys; a set has no order, so neither has the sum. */
  ghost function ColumnSum(d: Data, keys: set<string>, id: int, f: Filter): int
    decreases keys
  {
    if keys == {} then 0
    else
      var k :| k in keys;
      Contribution(d, k, id, f) + ColumnSum(d, keys - {k}, id, f)
  }

  /** Any key may be taken out of the sum first: the sum does not depend on the order keys are visited in. */
  lemma {:induction false} ColumnSumRemove(d: Data, keys: set<string>, k: string, id: int, f: Filter)
    requires k in keys
    ensures ColumnSum(d, keys, id, f) == Contribution(d, k, id, f) + ColumnSum(d, keys - {k}, id, f)
    decreases keys
  {
    var j :| j in keys && ColumnSum(d, keys, id, f) == Contribution(d, j, id, f) + ColumnSum(d, keys - {j}, id, f);
    if j != k {
      ColumnSumRemove(d, keys - {j}, k, id, f);
      ColumnSumRemove(d, keys - {k}, j, id, f);
      assert keys - {j} - {k} == keys - {k} - {j};
    }
  }

  /** A single key's sum is that key's contribution. */
  lemma ColumnSumSingle(d: Data, key: string, id: int, f: Filter)
    ensures ColumnSum(d, {key}, id, f) == Contribution(d, key, id, f)
  {
    ColumnSumRemove(d, {key}, key, id, f);
    assert {key} - {key} == {};
  }

  /** With the filter off, a store holding a single period totals each task to that period's count, and an absent task to 0. */
  lemma OnePeriodTotal(key: string, row: Row, id: int, f: Filter)
    requires !f.active
    ensures TaskTotal(map[key := row], id, f) == (if id in row then row[id] else 0)
  {
    var d := map[key := row];
    assert d.Keys == {key};
    ColumnSumSingle(d, key, id, f);
  }

  /** Two stores whose keys contribute alike have equal column sums. */
  lemma {:induction false} ColumnSumAgree(d1: Data, d2: Data, keys: set<string>, id: int, f: Filter)
    requires forall k :: k in keys ==> Contribution(d1, k, id, f) == Contribution(d2, k, id, f)
    ensures ColumnSum(d1, keys, id, f) == ColumnSum(d2, keys, id, f)
    decreases keys
  {
    if keys != {} {
      var k :| k in keys;
      ColumnSumRemove(d1, keys, k, id, f);
      ColumnSumRemove(d2, keys, k, id, f);
      ColumnSumAgree(d1, d2, keys - {k}, id, f);
    }
  }

  /** The task's total over the whole store. */
  ghost function TaskTotal(d: Data, id: int, f: Filter): int {
    ColumnSum(d, d.Keys, id, f)
  }

  /** The keys a filter admits. */
  function CountedKeys(keys: set<string>, f: Filter): set<string> {
    set k | k in keys && Counted(f, k)
  }

  /** An active filter sums exactly the keys whose period value lies in the inclusive range. */
  lemma {:induction false} ActiveFilterRestricts(d: Data, keys: set<string>, id: int, start: int, end: int)
    ensures ColumnSum(d, keys, id, Filter(true, start, end))
         == ColumnSum(d, CountedKeys(keys, Filter(true, start, end)), id, Filter(false, start, end))
    decreases keys
  {
    var on, off := Filter(true, start, end), Filter(false, start, end);
    var inRange := CountedKeys(keys, on);
    if keys != {} {
      var k :| k in keys;
      ColumnSumRemove(d, keys, k, id, on);
      ActiveFilterRestricts(d, keys - {k}, id, start, end);
      var rest := CountedKeys(keys - {k}, on);
      if Counted(on, k) {
        assert rest == inRange - {k};
        ColumnSumRemove(d, inRange, k, id, off);
      } else {
        assert rest == inRange;
      }
    } else {
      assert inRange == {};
    }
  }

  /** A point update changes only its own task's total, by the difference between the new and the old cell. */
  lemma SetCountTotals(d: Data, key: string, id: int, n: int, other: int, f: Filter)
    requires other != id
    ensures TaskTotal(SetCount(d, key, id, n), id, f)
         == TaskTotal(d, id, f) - Contribution(d, key, id, f) + Contribution(SetCount(d, key, id, n), key, id, f)
    ensures TaskTotal(SetCount(d, key, id, n), other, f) == TaskTotal(d, other, f)
  {
    var d2 := SetCount(d, key, id, n);
    SetCountFrame(d, key, id, n);
    var keys := d.Keys + {key};
    assert d2.Keys == keys;
    // Both totals can be taken over `keys`: a key absent from `d` contributes 0 there.
    ColumnSumRemove(d2, keys, key, id, f);
    ColumnSumRemove(d2, keys, key, other, f);
    ColumnSumAgree(d, d2, keys - {key}, id, f);
    ColumnSumAgree(d, d2, keys - {key}, other, f);
    if key in d {
      assert keys == d.Keys;
      ColumnSumRemove(d, keys, key, id, f);
      ColumnSumRemove(d, keys, key, other, f);
    } else {
      assert keys - {key} == d.Keys;
    }
  }

  /** Every task id of `ids` mapped to its total: with the catalog's ids, what `taskTotals` holds. */
  ghost function Totals(d: Data, f: Filter, ids: set<int>): (t: map<int, int>)
    ensures t.Keys == ids
  {
    map id | id in ids :: TaskTotal(d, id, f)
  }

  // ---------------------------------------------------------------- effort and points

  /** The sum of `totals` over the given tasks: with the catalog's distinct ids, `Object.values(taskTotals)` summed. */
  function Effort(totals: map<int, int>, tasks: seq<Task>): int
    requires forall k :: 0 <= k < |tasks| ==> tasks[k].id in totals
  {
    if tasks == [] then 0 else totals[tasks[0].id] + Effort(totals, tasks[1..])
  }

  /** Points in tenths: each task's total times its unit value in tenths, summed. */
  function PointsTenths(totals: map<int, int>, tasks: seq<Task>): int
    requires forall k :: 0 <= k < |tasks| ==> tasks[k].id in totals
  {
    if tasks == [] then 0 else totals[tasks[0].id] * tasks[0].unitTenths + PointsTenths(totals, tasks[1..])
  }

  predicate DistinctIds(tasks: seq<Task>) {
    forall i, j :: 0 <= i < j < |tasks| ==> tasks[i].id != tasks[j].id
  }

  predicate Lists(tasks: seq<Task>, id: int) {
    exists k :: 0 <= k < |tasks| && tasks[k].id == id
  }

  /** The unit value in tenths of the first task with the id, 0 when none has it. */
  function UnitOf(tasks: seq<Task>, id: int): nat {
    if tasks == [] then 0 else if tasks[0].id == id then tasks[0].unitTenths else UnitOf(tasks[1..], id)
  }

  /**
   * Changing one task's total changes the effort by the difference and the
   * points by the difference times the task's unit value; a total no listed
   * task reads changes neither.
   */
  lemma {:induction false} EffortUpdate(totals: map<int, int>, tasks: seq<Task>, id: int, n: int)
    requires DistinctIds(tasks)
    requires forall k :: 0 <= k < |tasks| ==> tasks[k].id in totals
    requires id in totals
    ensures Effort(totals[id := n], tasks) == Effort(totals, tasks) + (if Lists(tasks, id) then n - totals[id] else 0)
    ensures PointsTenths(totals[id := n], tasks) == PointsTenths(totals, tasks) + (n - totals[id]) * UnitOf(tasks, id)
  {
    if tasks != [] {
      var rest := tasks[1..];
      assert DistinctIds(rest) by {
        forall i, j | 0 <= i < j < |rest| ensures rest[i].id != rest[j].id {
          assert rest[i] == tasks[i + 1] && rest[j] == tasks[j + 1];
        }
      }
      EffortUpdate(totals, rest, id, n);
      if tasks[0].id == id {
        assert !Lists(rest, id) by {
          forall k | 0 <= k < |rest| ensures rest[k].id != id {
            assert rest[k] == tasks[k + 1];
          }
        }
        assert UnitOf(rest, id) == 0 by { UnitOfUnlisted(rest, id); }
        assert Lists(tasks, id) by { assert tasks[0].id == id; }
      } else {
        assert Lists(tasks, id) <==> Lists(rest, id) by {
          if Lists(tasks, id) {
            var k :| 0 <= k < |tasks| && tasks[k].id == id;
            assert rest[k - 1] == tasks[k];
          }
          if Lists(rest, id) {
            var k :| 0 <= k < |rest| && rest[k].id == id;
            assert tasks[k + 1] == rest[k];
          }
        }
      }
    }
  }

  lemma {:induction false} UnitOfUnlisted(tasks: seq<Task>, id: int)
    requires !Lists(tasks, id)
    ensures UnitOf(tasks, id) == 0
  {
    if tasks != [] {
      var rest := tasks[1..];
      assert tasks[0].id != id;
      forall k | 0 <= k < |rest| ensures rest[k].id != id {
        assert rest[k] == tasks[k + 1];
      }
      UnitOfUnlisted(rest, id);
    }
  }

  /** A point update replaces one entry of the totals, its own, which moves by the edited cell's change in contribution. */
  lemma SetCountTotalsMap(d: Data, key: string, id: int, n: int, f: Filter, ids: set<int>)
    requires id in ids
    ensures Totals(SetCount(d, key, id, n), f, ids) == Totals(d, f, ids)[id := TaskTotal(SetCount(d, key, id, n), id, f)]
    ensures TaskTotal(SetCount(d, key, id, n), id, f) - Totals(d, f, ids)[id]
         == Contribution(SetCount(d, key, id, n), key, id, f) - Contribution(d, key, id, f)
  {
    var before, after := Totals(d, f, ids), Totals(SetCount(d, key, id, n), f, ids);
    SetCountTotals(d, key, id, n, id + 1, f);
    forall other | other in ids && other != id
      ensures after[other] == before[other]
    {
      SetCountTotals(d, key, id, n, other, f);
    }
    AgreeExceptOne(before, after, id);
  }

  lemma AgreeExceptOne(before: map<int, int>, after: map<int, int>, id: int)
    requires before.Keys == after.Keys && id in after
    requires forall other :: other in before && other != id ==> after[other] == before[other]
    ensures after == before[id := after[id]]
  {
    var replaced := before[id := after[id]];
    assert replaced.Keys == after.Keys;
    forall k | k in after ensures after[k] == replaced[k] {
    }
  }

  lemma CatalogListsIds(id: int)
    requires id in CatalogIds()
    ensures Lists(TASKS, id) && DistinctIds(TASKS)
    ensures forall k :: 0 <= k < |TASKS| ==> TASKS[k].id in CatalogIds()
  {
    CatalogIdsDistinct();
    var j :| 0 <= j < |TASKS| && TASKS[j].id == id;
  }

  /** `EffortUpdate` for a total that moved by `delta`. */
  lemma ShiftedTotal(before: map<int, int>, after: map<int, int>, tasks: seq<Task>, id: int, now: int, delta: int)
    requires DistinctIds(tasks) && Lists(tasks, id)
    requires forall k :: 0 <= k < |tasks| ==> tasks[k].id in before
    requires id in before && after == before[id := now] && now - before[id] == delta
    ensures Effort(after, tasks) == Effort(before, tasks) + delta
    ensures PointsTenths(after, tasks) == PointsTenths(before, tasks) + delta * UnitOf(tasks, id)
  {
    EffortUpdate(before, tasks, id, now);
  }

  /** Editing one cell moves the effort by the change in that task's total: the cell's new contribution minus its old one. */
  lemma SetCountEffort(d: Data, key: string, id: int, n: int, f: Filter, tasks: seq<Task>, ids: set<int>)
    requires id in ids && Lists(tasks, id) && DistinctIds(tasks)
    requires forall k :: 0 <= k < |tasks| ==> tasks[k].id in ids
    ensures Effort(Totals(SetCount(d, key, id, n), f, ids), tasks)
         == Effort(Totals(d, f, ids), tasks) - Contribution(d, key, id, f) + Contribution(SetCount(d, key, id, n), key, id, f)
  {
    var d2 := SetCount(d, key, id, n);
    var delta := Contribution(d2, key, id, f) - Contribution(d, key, id, f);
    SetCountTotalsMap(d, key, id, n, f, ids);
    ShiftedTotal(Totals(d, f, ids), Totals(d2, f, ids), tasks, id, TaskTotal(d2, id, f), delta);
  }

  /** Editing one cell moves the points by the change in that task's total times the task's unit value. */
  lemma SetCountPoints(d: Data, key: string, id: int, n: int, f: Filter, tasks: seq<Task>, ids: set<int>)
    requires id in ids && Lists(tasks, id) && DistinctIds(tasks)
    requires forall k :: 0 <= k < |tasks| ==> tasks[k].id in ids
    ensures PointsTenths(Totals(SetCount(d, key, id, n), f, ids), tasks)
         == PointsTenths(Totals(d, f, ids), tasks)
            + (Contribution(SetCount(d, key, id, n), key, id, f) - Contribution(d, key, id, f)) * UnitOf(tasks, id)
  {
    var d2 := SetCount(d, key, id, n);
    var delta := Contribution(d2, key, id, f) - Contribution(d, key, id, f);
    SetCountTotalsMap(d, key, id, n, f, ids);
    ShiftedTotal(Totals(d, f, ids), Totals(d2, f, ids), tasks, id, TaskTotal(d2, id, f), delta);
  }

  /** When every task's total is 0, so are the effort and the points. */
  lemma {:induction false} ZeroTotalsZeroEffort(totals: map<int, int>, tasks: seq<Task>)
    requires forall k :: 0 <= k < |tasks| ==> tasks[k].id in totals && totals[tasks[k].id] == 0
    ensures Effort(totals, tasks) == 0 && PointsTenths(totals, tasks) == 0
  {
    if tasks != [] {
      ZeroTotalsZeroEffort(totals, tasks[1..]);
    }
  }
}
