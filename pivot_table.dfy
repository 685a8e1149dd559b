/**
  Aggregation of a partition's unit-nights (appski.py:45-53):
  `pivot_table(index=[Event, Hotel, Room], columns="Stay Date", aggfunc="size", fill_value=0)`.

  Grouping drops every unit-night with a missing index field (pandas' default `dropna`).
  The rows are the distinct (event, hotel, room) keys in ascending order, the columns the
  distinct stay dates of the grouped unit-nights in ascending order, and each cell the size
  of its group, 0 where the group is empty. When no unit-night falls in any group there is
  no table: the result is `None`.
 */
module PivotTable {
  import opened Wrappers
  import opened Ordering
  import opened Bookings
  import opened Expansion

  /** A row index of the pivot. */
  datatype Key = Key(event: string, hotel: string, room: string)

  /** The dense count matrix: `cells[i][j]` is the count for `rows[i]` on `columns[j]`. */
  datatype Pivot = Pivot(rows: seq<Key>, columns: seq<int>, cells: seq<seq<nat>>)

  /** The group a unit-night falls in, if its three index fields are all present. */
  function KeyOf(u: UnitNight): Option<Key>
  {
    if u.event.Some? && u.hotel.Some? && u.room.Some? then
      Some(Key(u.event.value, u.hotel.value, u.room.value))
    else None
  }

  /** The unit-night of group `k` on night `d`. */
  function UnitAt(k: Key, d: int): UnitNight
  {
    UnitNight(Some(k.event), Some(k.hotel), Some(k.room), d)
  }

  /** Python's tuple order on (event, hotel, room). */
  predicate KeyLess(a: Key, b: Key)
  {
    || StringLess(a.event, b.event)
    || (a.event == b.event && StringLess(a.hotel, b.hotel))
    || (a.event == b.event && a.hotel == b.hotel && StringLess(a.room, b.room))
  }

  lemma KeyLessIsStrictTotalOrder()
    ensures StrictTotalOrder(KeyLess)
  {
    StringLessIsStrictTotalOrder();
  }

  /** The keys of the groups that are not empty. */
  ghost function KeySet(units: seq<UnitNight>): set<Key>
  {
    set u | u in units && KeyOf(u).Some? :: KeyOf(u).value
  }

  /** The stay dates of the grouped unit-nights. */
  ghost function DateSet(units: seq<UnitNight>): set<int>
  {
    set u | u in units && KeyOf(u).Some? :: u.stay
  }

  /** The group keys of the unit-nights, one per grouped unit-night, in order. */
  function GroupKeys(units: seq<UnitNight>): (ks: seq<Key>)
    ensures Elements(ks) == KeySet(units)
  {
    if units == [] then []
    else
      var init, last := units[..|units| - 1], units[|units| - 1];
      assert units == init + [last];
      var tail := if KeyOf(last).Some? then [KeyOf(last).value] else [];
      assert KeySet(units) == KeySet(init) + Elements(tail) by {
        assert forall u :: u in units <==> u in init || u == last;
      }
      ElementsAppend(GroupKeys(init), tail);
      GroupKeys(init) + tail
  }

  /** The stay dates of the grouped unit-nights, one per unit-night, in order. */
  function GroupDates(units: seq<UnitNight>): (ds: seq<int>)
    ensures Elements(ds) == DateSet(units)
  {
    if units == [] then []
    else
      var init, last := units[..|units| - 1], units[|units| - 1];
      assert units == init + [last];
      var tail := if KeyOf(last).Some? then [last.stay] else [];
      assert DateSet(units) == DateSet(init) + Elements(tail) by {
        assert forall u :: u in units <==> u in init || u == last;
      }
      ElementsAppend(GroupDates(init), tail);
      GroupDates(init) + tail
  }

  /** The size of group `k` on night `d`. */
  function CellCount(units: seq<UnitNight>, k: Key, d: int): nat
  {
    if units == [] then 0
    else
      var last := units[|units| - 1];
      CellCount(units[..|units| - 1], k, d) + (if KeyOf(last) == Some(k) && last.stay == d then 1 else 0)
  }

  /** The counts of group `k` over the columns `ds`. */
  function Row(units: seq<UnitNight>, k: Key, ds: seq<int>): (r: seq<nat>)
    ensures |r| == |ds|
  {
    if ds == [] then [] else [CellCount(units, k, ds[0])] + Row(units, k, ds[1..])
  }

  /** The counts of the groups `ks` over the columns `ds`, every cell filled. */
  function Matrix(units: seq<UnitNight>, ks: seq<Key>, ds: seq<int>): (m: seq<seq<nat>>)
    ensures |m| == |ks|
    ensures forall i :: 0 <= i < |m| ==> |m[i]| == |ds|
  {
    if ks == [] then [] else [Row(units, ks[0], ds)] + Matrix(units, ks[1..], ds)
  }

  /** `p` is the pivot table of `units`. */
  ghost predicate IsPivotOf(p: Pivot, units: seq<UnitNight>)
  {
    && StrictlySorted(KeyLess, p.rows) && Elements(p.rows) == KeySet(units)
    && StrictlySorted(IntLess, p.columns) && Elements(p.columns) == DateSet(units)
    && |p.cells| == |p.rows|
    && (forall i :: 0 <= i < |p.cells| ==> |p.cells[i]| == |p.columns|)
    && (forall i, j :: 0 <= i < |p.cells| && 0 <= j < |p.cells[i]| ==>
          p.cells[i][j] == multiset(units)[UnitAt(p.rows[i], p.columns[j])])
  }

  /** `pivot_table(..., aggfunc="size", fill_value=0)`, or `None` when no group is non-empty. */
  function BuildPivot(units: seq<UnitNight>): (r: Option<Pivot>)
    ensures r.None? <==> KeySet(units) == {}
    ensures r.Some? ==> IsPivotOf(r.value, units)
  {
    KeyLessIsStrictTotalOrder();
    IntLessIsStrictTotalOrder();
    var ks := SortedDistinct(KeyLess, GroupKeys(units));
    var ds := SortedDistinct(IntLess, GroupDates(units));
    if ks == [] then
      assert Elements(ks) == {};
      None
    else
      var p := Pivot(ks, ds, Matrix(units, ks, ds));
      assert IsPivotOf(p, units) by {
        forall i, j | 0 <= i < |ks| && 0 <= j < |ds|
          ensures p.cells[i][j] == multiset(units)[UnitAt(ks[i], ds[j])]
        {
          MatrixAt(units, ks, ds, i, j);
          CellCountIsMultiplicity(units, ks[i], ds[j]);
        }
      }
      Some(p)
  }

  lemma {:induction false} MatrixAt(units: seq<UnitNight>, ks: seq<Key>, ds: seq<int>, i: nat, j: nat)
    requires i < |ks| && j < |ds|
    ensures Matrix(units, ks, ds)[i][j] == CellCount(units, ks[i], ds[j])
  {
    if i > 0 {
      MatrixAt(units, ks[1..], ds, i - 1, j);
    } else {
      RowAt(units, ks[0], ds, j);
    }
  }

  lemma {:induction false} RowAt(units: seq<UnitNight>, k: Key, ds: seq<int>, j: nat)
    requires j < |ds|
    ensures Row(units, k, ds)[j] == CellCount(units, k, ds[j])
  {
    if j > 0 {
      RowAt(units, k, ds[1..], j - 1);
    }
  }

  /** A cell counts exactly the unit-nights of its group and night: the size of the group
      in the multiset of unit-nights. */
  lemma {:induction false} CellCountIsMultiplicity(units: seq<UnitNight>, k: Key, d: int)
    ensures CellCount(units, k, d) == multiset(units)[UnitAt(k, d)]
  {
    if units != [] {
      var init, last := units[..|units| - 1], units[|units| - 1];
      assert units == init + [last];
      CellCountIsMultiplicity(init, k, d);
      assert (KeyOf(last) == Some(k) && last.stay == d) <==> last == UnitAt(k, d);
    }
  }

  /** Two tables meeting the pivot's description of the same unit-nights are identical:
      the output is deterministic. */
  lemma PivotIsDeterministic(p: Pivot, q: Pivot, units: seq<UnitNight>)
    requires IsPivotOf(p, units) && IsPivotOf(q, units)
    ensures p == q
  {
    KeyLessIsStrictTotalOrder();
    IntLessIsStrictTotalOrder();
    StrictlySortedUnique(KeyLess, p.rows, q.rows);
    StrictlySortedUnique(IntLess, p.columns, q.columns);
    forall i | 0 <= i < |p.cells| ensures p.cells[i] == q.cells[i] {
      assert |p.cells[i]| == |q.cells[i]|;
      forall j | 0 <= j < |p.cells[i]| ensures p.cells[i][j] == q.cells[i][j] {
        assert p.cells[i][j] == multiset(units)[UnitAt(p.rows[i], p.columns[j])];
        assert q.cells[i][j] == multiset(units)[UnitAt(q.rows[i], q.columns[j])];
      }
    }
  }

  /** Sum of a row of the table. */
  function SumRow(r: seq<nat>): nat
  {
    if r == [] then 0 else r[0] + SumRow(r[1..])
  }

  /** Grand total of the table. */
  function SumCells(m: seq<seq<nat>>): nat
  {
    if m == [] then 0 else SumRow(m[0]) + SumCells(m[1..])
  }

  /** The number of unit-nights that fall in some group. */
  function GroupedCount(units: seq<UnitNight>): nat
  {
    if units == [] then 0
    else GroupedCount(units[..|units| - 1]) + (if KeyOf(units[|units| - 1]).Some? then 1 else 0)
  }

  lemma {:induction false} RowStep(us: seq<UnitNight>, u: UnitNight, k: Key, ds: seq<int>)
    requires Distinct(ds)
    ensures SumRow(Row(us + [u], k, ds)) ==
      SumRow(Row(us, k, ds)) + (if KeyOf(u) == Some(k) && u.stay in ds then 1 else 0)
  {
    if ds != [] {
      assert (us + [u])[..|us|] == us;
      RowStep(us, u, k, ds[1..]);
      assert u.stay in ds <==> u.stay == ds[0] || u.stay in ds[1..];
      assert ds[0] !in ds[1..];
    }
  }

  lemma {:induction false} MatrixStep(us: seq<UnitNight>, u: UnitNight, ks: seq<Key>, ds: seq<int>)
    requires Distinct(ks) && Distinct(ds)
    ensures SumCells(Matrix(us + [u], ks, ds)) ==
      SumCells(Matrix(us, ks, ds)) + (if KeyOf(u).Some? && KeyOf(u).value in ks && u.stay in ds then 1 else 0)
  {
    if ks != [] {
      RowStep(us, u, ks[0], ds);
      MatrixStep(us, u, ks[1..], ds);
      assert KeyOf(u).Some? ==> (KeyOf(u).value in ks <==> KeyOf(u).value == ks[0] || KeyOf(u).value in ks[1..]);
      assert ks[0] !in ks[1..];
    }
  }

  /** Summed over distinct rows and columns that cover every group, the table counts every
      grouped unit-night once. */
  lemma {:induction false} MatrixTotal(units: seq<UnitNight>, ks: seq<Key>, ds: seq<int>)
    requires Distinct(ks) && Distinct(ds)
    requires forall u :: u in units && KeyOf(u).Some? ==> KeyOf(u).value in ks && u.stay in ds
    ensures SumCells(Matrix(units, ks, ds)) == GroupedCount(units)
  {
    if units == [] {
      ZeroMatrix(ks, ds);
    } else {
      var init, last := units[..|units| - 1], units[|units| - 1];
      assert units == init + [last];
      MatrixTotal(init, ks, ds);
      MatrixStep(init, last, ks, ds);
    }
  }

  lemma {:induction false} ZeroMatrix(ks: seq<Key>, ds: seq<int>)
    ensures SumCells(Matrix([], ks, ds)) == 0
  {
    if ks != [] {
      ZeroRow(ks[0], ds);
      ZeroMatrix(ks[1..], ds);
    }
  }

  lemma {:induction false} ZeroRow(k: Key, ds: seq<int>)
    ensures SumRow(Row([], k, ds)) == 0
  {
    if ds != [] {
      ZeroRow(k, ds[1..]);
    }
  }

  lemma {:induction false} GroupedCountIsZero(units: seq<UnitNight>)
    ensures GroupedCount(units) == 0 <==> KeySet(units) == {}
  {
    if units != [] {
      var init, last := units[..|units| - 1], units[|units| - 1];
      assert units == init + [last];
      GroupedCountIsZero(init);
      if KeyOf(last).Some? {
        assert KeyOf(last).value in KeySet(units);
      } else {
        assert KeySet(units) == KeySet(init);
      }
    }
  }

  /** The grand total over all cells equals the number of grouped unit-nights. */
  lemma PivotTotal(units: seq<UnitNight>)
    ensures BuildPivot(units).Some? ==> SumCells(BuildPivot(units).value.cells) == GroupedCount(units)
    ensures BuildPivot(units).None? <==> GroupedCount(units) == 0
  {
    GroupedCountIsZero(units);
    var r := BuildPivot(units);
    if r.Some? {
      var p := r.value;
      KeyLessIsStrictTotalOrder();
      IntLessIsStrictTotalOrder();
      StrictlySortedIsDistinct(KeyLess, p.rows);
      StrictlySortedIsDistinct(IntLess, p.columns);
      forall u | u in units && KeyOf(u).Some? ensures KeyOf(u).value in p.rows && u.stay in p.columns {
        assert KeyOf(u).value in KeySet(units);
        assert u.stay in DateSet(units);
      }
      MatrixTotal(units, p.rows, p.columns);
    }
  }
}
