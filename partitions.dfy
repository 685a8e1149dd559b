/**
  The pipeline of appski.py:14-53 once the file is read: normalise the rows, keep the
  selected events, split by event-start date, and build one pivot per date in ascending
  date order (appski.py:22-31 for the selection and the partition loop).
 */
module Partitions {
  import opened Wrappers
  import opened Ordering
  import opened Bookings
  import opened Expansion
  import opened PivotTable

  /** The pivot built for one event-start date, `None` when it has no grouped unit-night. */
  datatype DatePivot = DatePivot(date: int, pivot: Option<Pivot>)

  /** The event names present in the rows. */
  ghost function NameSet(bs: seq<Booking>): set<string>
  {
    set b | b in bs && b.name.Some? :: b.name.value
  }

  /** The event-start dates present in the rows. */
  ghost function StartSet(bs: seq<Booking>): set<int>
  {
    set b | b in bs && b.eventStart.Some? :: b.eventStart.value
  }

  /** The present event names, one per row, in order. */
  function PresentNames(bs: seq<Booking>): (names: seq<string>)
    ensures Elements(names) == NameSet(bs)
  {
    if bs == [] then []
    else
      var init, last := bs[..|bs| - 1], bs[|bs| - 1];
      assert bs == init + [last];
      var tail := if last.name.Some? then [last.name.value] else [];
      assert NameSet(bs) == NameSet(init) + Elements(tail) by {
        assert forall b :: b in bs <==> b in init || b == last;
      }
      ElementsAppend(PresentNames(init), tail);
      PresentNames(init) + tail
  }

  /** The present event-start dates, one per row, in order. */
  function PresentStarts(bs: seq<Booking>): (ds: seq<int>)
    ensures Elements(ds) == StartSet(bs)
  {
    if bs == [] then []
    else
      var init, last := bs[..|bs| - 1], bs[|bs| - 1];
      assert bs == init + [last];
      var tail := if last.eventStart.Some? then [last.eventStart.value] else [];
      assert StartSet(bs) == StartSet(init) + Elements(tail) by {
        assert forall b :: b in bs <==> b in init || b == last;
      }
      ElementsAppend(PresentStarts(init), tail);
      PresentStarts(init) + tail
  }

  /** The options offered for selection: `sorted(df["name"].dropna().unique())`. */
  function EventNames(bs: seq<Booking>): (names: seq<string>)
    ensures StrictlySorted(StringLess, names)
    ensures Elements(names) == NameSet(bs)
  {
    StringLessIsStrictTotalOrder();
    SortedDistinct(StringLess, PresentNames(bs))
  }

  /** `df[df["name"].isin(selected)]`: a missing name is in no selection. */
  function SelectEvents(bs: seq<Booking>, selected: seq<string>): seq<Booking>
  {
    if bs == [] then []
    else
      var last := bs[|bs| - 1];
      SelectEvents(bs[..|bs| - 1], selected)
        + (if last.name.Some? && last.name.value in selected then [last] else [])
  }

  lemma {:induction false} SelectEventsMembership(bs: seq<Booking>, selected: seq<string>, b: Booking)
    ensures b in SelectEvents(bs, selected) <==> b in bs && b.name.Some? && b.name.value in selected
  {
    if bs != [] {
      var init := bs[..|bs| - 1];
      assert bs == init + [bs[|bs| - 1]];
      SelectEventsMembership(init, selected, b);
    }
  }

  /** `isin` judges each row on its own: the filter distributes over concatenation, so the
      kept rows stay in input order. */
  lemma {:induction false} SelectEventsAppend(a: seq<Booking>, b: seq<Booking>, selected: seq<string>)
    ensures SelectEvents(a + b, selected) == SelectEvents(a, selected) + SelectEvents(b, selected)
  {
    if b == [] {
      assert a + b == a;
    } else {
      var n := |b| - 1;
      assert (a + b)[..|a + b| - 1] == a + b[..n];
      SelectEventsAppend(a, b[..n], selected);
    }
  }

  /** A row of a selected event is kept once per occurrence, so identical rows all count;
      any other row is not kept at all. */
  lemma {:induction false} SelectEventsCount(bs: seq<Booking>, selected: seq<string>, b: Booking)
    ensures multiset(SelectEvents(bs, selected))[b] ==
      if b.name.Some? && b.name.value in selected then multiset(bs)[b] else 0
  {
    if bs != [] {
      var init := bs[..|bs| - 1];
      assert bs == init + [bs[|bs| - 1]];
      SelectEventsCount(init, selected, b);
    }
  }

  /** `sorted(df["realeventstartdate"].dt.date.unique())` over the dates that are present. */
  function StartDates(bs: seq<Booking>): (ds: seq<int>)
    ensures StrictlySorted(IntLess, ds)
    ensures Elements(ds) == StartSet(bs)
  {
    IntLessIsStrictTotalOrder();
    SortedDistinct(IntLess, PresentStarts(bs))
  }

  /** `df[df["realeventstartdate"].dt.date == d]`: a missing date equals no date. */
  function InPartition(bs: seq<Booking>, d: int): seq<Booking>
  {
    if bs == [] then []
    else
      var last := bs[|bs| - 1];
      InPartition(bs[..|bs| - 1], d) + (if last.eventStart == Some(d) then [last] else [])
  }

  lemma {:induction false} InPartitionMembership(bs: seq<Booking>, d: int, b: Booking)
    ensures b in InPartition(bs, d) <==> b in bs && b.eventStart == Some(d)
  {
    if bs != [] {
      var init := bs[..|bs| - 1];
      assert bs == init + [bs[|bs| - 1]];
      InPartitionMembership(init, d, b);
    }
  }

  /** The date filter judges each row on its own, keeping input order. */
  lemma {:induction false} InPartitionAppend(a: seq<Booking>, b: seq<Booking>, d: int)
    ensures InPartition(a + b, d) == InPartition(a, d) + InPartition(b, d)
  {
    if b == [] {
      assert a + b == a;
    } else {
      var n := |b| - 1;
      assert (a + b)[..|a + b| - 1] == a + b[..n];
      InPartitionAppend(a, b[..n], d);
    }
  }

  /** A row starting on `d` is in the partition once per occurrence; any other row is not. */
  lemma {:induction false} InPartitionCount(bs: seq<Booking>, d: int, b: Booking)
    ensures multiset(InPartition(bs, d))[b] == if b.eventStart == Some(d) then multiset(bs)[b] else 0
  {
    if bs != [] {
      var init := bs[..|bs| - 1];
      assert bs == init + [bs[|bs| - 1]];
      InPartitionCount(init, d, b);
    }
  }

  /** The pivot of one partition: expand its rows, then aggregate. */
  function PartitionPivot(sel: seq<Booking>, d: int): Option<Pivot>
  {
    BuildPivot(Expanded(InPartition(sel, d)))
  }

  /** One (date, pivot) per date of `ds`, in the order of `ds`. */
  function DatePivots(sel: seq<Booking>, ds: seq<int>): (out: seq<DatePivot>)
    ensures |out| == |ds|
  {
    seq(|ds|, i requires 0 <= i < |ds| => DatePivot(ds[i], PartitionPivot(sel, ds[i])))
  }

  /** What the whole run produces for the raw rows and the selection, in date order. */
  function Pivots(raws: seq<RawRow>, selected: seq<string>): seq<DatePivot>
  {
    if selected == [] then []
    else
      var sel := SelectEvents(Normalize(raws), selected);
      DatePivots(sel, StartDates(sel))
  }

  /** The run: normalise, select, then one expansion and one pivot per event-start date. */
  method GeneratePivots(raws: seq<RawRow>, selected: seq<string>) returns (out: seq<DatePivot>)
    ensures selected == [] ==> out == []  // also a consequence of the next clause, kept for the reader
    ensures out == Pivots(raws, selected)
  {
    out := [];
    if selected == [] {
      return;
    }
    var sel := SelectEvents(Normalize(raws), selected);
    var dates := StartDates(sel);
    ghost var all := DatePivots(sel, dates);
    for i := 0 to |dates|
      invariant out == all[..i]
    {
      var partition := InPartition(sel, dates[i]);
      var expanded := ExpandRows(partition);
      var pivot := BuildPivot(expanded);
      assert all[i] == DatePivot(dates[i], pivot);
      out := out + [DatePivot(dates[i], pivot)];
    }
    assert all[..|dates|] == all;
  }

  /** The group a booking's unit-nights fall in. */
  function BookingKey(b: Booking): Option<Key>
  {
    KeyOf(NightOf(b, b.checkIn))
  }

  /** Σ quantity × nights over the rows whose event, hotel and room are all present. */
  function GroupedTotal(bs: seq<Booking>): nat
  {
    if bs == [] then 0
    else
      var last := bs[|bs| - 1];
      GroupedTotal(bs[..|bs| - 1]) + (if BookingKey(last).Some? then Units(last) * Nights(last) else 0)
  }

  lemma {:induction false} GroupedCountAppend(a: seq<UnitNight>, b: seq<UnitNight>)
    ensures GroupedCount(a + b) == GroupedCount(a) + GroupedCount(b)
  {
    if b == [] {
      assert a + b == a;
    } else {
      var n := |b| - 1;
      assert (a + b)[..|a + b| - 1] == a + b[..n];
      GroupedCountAppend(a, b[..n]);
    }
  }

  lemma {:induction false} GroupedCountUniform(us: seq<UnitNight>, key: Option<Key>)
    requires forall u :: u in us ==> KeyOf(u) == key
    ensures GroupedCount(us) == if key.Some? then |us| else 0
  {
    if us != [] {
      GroupedCountUniform(us[..|us| - 1], key);
      assert us[|us| - 1] in us;
    }
  }

  /** The grouped unit-nights of a partition number Σ quantity × nights over its rows whose
      index fields are present. */
  lemma {:induction false} GroupedExpansion(bs: seq<Booking>)
    ensures GroupedCount(Expanded(bs)) == GroupedTotal(bs)
  {
    if bs != [] {
      var init, last := bs[..|bs| - 1], bs[|bs| - 1];
      GroupedExpansion(init);
      GroupedCountAppend(Expanded(init), BookingUnits(last));
      forall u | u in BookingUnits(last) ensures KeyOf(u) == BookingKey(last) {
        BookingUnitsShape(last, u);
      }
      GroupedCountUniform(BookingUnits(last), BookingKey(last));
      BookingUnitsCount(last);
    }
  }

  /** The grand total of a partition's pivot is Σ quantity × nights over its rows whose event,
      hotel and room are present, and there is no pivot exactly when that sum is 0. */
  lemma PartitionTotal(bs: seq<Booking>)
    ensures BuildPivot(Expanded(bs)).None? <==> GroupedTotal(bs) == 0
    ensures BuildPivot(Expanded(bs)).Some? ==> SumCells(BuildPivot(Expanded(bs)).value.cells) == GroupedTotal(bs)
  {
    PivotTotal(Expanded(bs));
    GroupedExpansion(bs);
  }

  /** The rooms the bookings hold for group `k` on night `d`: Σ quantity over the bookings of
      that group whose stay covers `d`. */
  function RoomsBooked(bs: seq<Booking>, k: Key, d: int): nat
  {
    if bs == [] then 0
    else
      var last := bs[|bs| - 1];
      RoomsBooked(bs[..|bs| - 1], k, d)
        + (if BookingKey(last) == Some(k) && last.checkIn <= d < last.checkOut then Units(last) else 0)
  }

  lemma {:induction false} ExpandedMultiplicity(bs: seq<Booking>, k: Key, d: int)
    ensures multiset(Expanded(bs))[UnitAt(k, d)] == RoomsBooked(bs, k, d)
  {
    if bs != [] {
      var init, last := bs[..|bs| - 1], bs[|bs| - 1];
      ExpandedMultiplicity(init, k, d);
      if BookingKey(last) == Some(k) {
        assert UnitAt(k, d) == NightOf(last, d);
        BookingUnitsPerNight(last, d);
      } else if UnitAt(k, d) in BookingUnits(last) {
        BookingUnitsShape(last, UnitAt(k, d));
        assert false;
      }
    }
  }

  /** Each cell of a partition's pivot is the number of rooms its rows book for that
      (event, hotel, room) on that night. */
  lemma PartitionCell(bs: seq<Booking>, i: nat, j: nat)
    requires BuildPivot(Expanded(bs)).Some?
    requires i < |BuildPivot(Expanded(bs)).value.rows| && j < |BuildPivot(Expanded(bs)).value.columns|
    ensures var p := BuildPivot(Expanded(bs)).value;
      p.cells[i][j] == RoomsBooked(bs, p.rows[i], p.columns[j])
  {
    var p := BuildPivot(Expanded(bs)).value;
    ExpandedMultiplicity(bs, p.rows[i], p.columns[j]);
  }

  /** The pivots come in strictly ascending order of event-start date. */
  lemma PivotsAscending(raws: seq<RawRow>, selected: seq<string>)
    ensures var out := Pivots(raws, selected);
      forall i, j :: 0 <= i < j < |out| ==> out[i].date < out[j].date
  {
    if selected != [] {
      var sel := SelectEvents(Normalize(raws), selected);
      var ds := StartDates(sel);
      var out := Pivots(raws, selected);
      assert out == DatePivots(sel, ds);
      forall i, j | 0 <= i < j < |out| ensures out[i].date < out[j].date {
        assert out[i].date == ds[i] && out[j].date == ds[j];
        assert IntLess(ds[i], ds[j]);
      }
    }
  }

  lemma StartDatesMembership(bs: seq<Booking>, d: int)
    ensures d in StartDates(bs) <==> exists b :: b in bs && b.eventStart == Some(d)
  {
    assert d in StartDates(bs) <==> d in StartSet(bs);
  }

  lemma PivotsDateAt(raws: seq<RawRow>, selected: seq<string>, d: int)
    requires selected != []
    ensures (exists i :: 0 <= i < |Pivots(raws, selected)| && Pivots(raws, selected)[i].date == d)
      <==> d in StartDates(SelectEvents(Normalize(raws), selected))
  {
    var ds := StartDates(SelectEvents(Normalize(raws), selected));
    if d in ds {
      var i :| 0 <= i < |ds| && ds[i] == d;
      assert Pivots(raws, selected)[i].date == d;
    }
  }

  /** There is a pivot for date `d` exactly when some normalised row of a selected event
      starts on `d`; with no selection there is none. */
  lemma PivotDates(raws: seq<RawRow>, selected: seq<string>, d: int)
    ensures var out := Pivots(raws, selected);
      (exists i :: 0 <= i < |out| && out[i].date == d) <==>
        selected != [] &&
        exists b :: b in Normalize(raws) && b.name.Some? && b.name.value in selected && b.eventStart == Some(d)
  {
    if selected != [] {
      var bs := Normalize(raws);
      var sel := SelectEvents(bs, selected);
      PivotsDateAt(raws, selected, d);
      StartDatesMembership(sel, d);
      forall b ensures b in sel <==> b in bs && b.name.Some? && b.name.value in selected {
        SelectEventsMembership(bs, selected, b);
      }
    }
  }

  /** The pivot for date `d` is built from exactly the normalised rows of a selected event
      that start on `d`, each as often as it occurs: each row is expanded in its own
      partition and no other. */
  lemma PartitionRows(raws: seq<RawRow>, selected: seq<string>, d: int, b: Booking)
    ensures b in InPartition(SelectEvents(Normalize(raws), selected), d) <==>
      b in Normalize(raws) && b.name.Some? && b.name.value in selected && b.eventStart == Some(d)
    ensures multiset(InPartition(SelectEvents(Normalize(raws), selected), d))[b] ==
      if b.name.Some? && b.name.value in selected && b.eventStart == Some(d)
      then multiset(Normalize(raws))[b] else 0
  {
    InPartitionMembership(SelectEvents(Normalize(raws), selected), d, b);
    SelectEventsMembership(Normalize(raws), selected, b);
    InPartitionCount(SelectEvents(Normalize(raws), selected), d, b);
    SelectEventsCount(Normalize(raws), selected, b);
  }

  lemma OneBookingGroups(b: Booking, k: Key)
    requires BookingKey(b) == Some(k) && b.checkIn < b.checkOut && b.quantity > 0
    ensures KeySet(BookingUnits(b)) == {k}
    ensures DateSet(BookingUnits(b)) == Elements(seq(b.checkOut - b.checkIn, i => b.checkIn + i))
    ensures forall d :: b.checkIn <= d < b.checkOut ==> multiset(BookingUnits(b))[UnitAt(k, d)] == b.quantity
  {
    var units := BookingUnits(b);
    var nights := seq(b.checkOut - b.checkIn, i => b.checkIn + i);
    forall u | u in units ensures KeyOf(u) == Some(k) && b.checkIn <= u.stay < b.checkOut {
      BookingUnitsShape(b, u);
    }
    forall d | b.checkIn <= d < b.checkOut ensures multiset(units)[UnitAt(k, d)] == b.quantity {
      BookingUnitsPerNight(b, d);
      assert UnitAt(k, d) == NightOf(b, d);
    }
    assert UnitAt(k, b.checkIn) in units;
    forall d | d in Elements(nights) ensures d in DateSet(units) {
      assert UnitAt(k, d) in units;
    }
    forall d | d in DateSet(units) ensures d in Elements(nights) {
      assert nights[d - b.checkIn] == d;
    }
  }

  lemma OneBookingIsPivot(b: Booking, k: Key)
    requires BookingKey(b) == Some(k) && b.checkIn < b.checkOut && b.quantity > 0
    ensures IsPivotOf(Pivot(
      [k],
      seq(b.checkOut - b.checkIn, i => b.checkIn + i),
      [seq(b.checkOut - b.checkIn, _ => b.quantity)]), BookingUnits(b))
  {
    var units := BookingUnits(b);
    var n := b.checkOut - b.checkIn;
    var nights := seq(n, i => b.checkIn + i);
    var row := seq(n, _ => b.quantity);
    OneBookingGroups(b, k);
    assert Elements([k]) == {k};
    assert StrictlySorted(IntLess, nights);
    assert forall j :: 0 <= j < n ==> row[j] == multiset(units)[UnitAt(k, nights[j])];
  }

  /** A single booking with a non-empty stay, a positive quantity and all index fields
      present pivots to one row, one column per night of the stay in ascending order, and
      the quantity in every cell. */
  lemma OneBookingPivot(b: Booking)
    requires BookingKey(b).Some? && b.checkIn < b.checkOut && b.quantity > 0
    ensures BuildPivot(Expanded([b])) == Some(Pivot(
      [BookingKey(b).value],
      seq(b.checkOut - b.checkIn, i => b.checkIn + i),
      [seq(b.checkOut - b.checkIn, _ => b.quantity)]))
  {
    var units := Expanded([b]);
    assert units == BookingUnits(b) by {
      assert Expanded([b][..0]) == [];
    }
    var k := BookingKey(b).value;
    var want := Pivot(
      [k],
      seq(b.checkOut - b.checkIn, i => b.checkIn + i),
      [seq(b.checkOut - b.checkIn, _ => b.quantity)]);
    OneBookingIsPivot(b, k);
    OneBookingGroups(b, k);
    PivotIsDeterministic(BuildPivot(units).value, want, units);
  }

  lemma SingletonStartDates(b: Booking, start: int)
    requires b.eventStart == Some(start)
    ensures StartDates([b]) == [start]
  {
    IntLessIsStrictTotalOrder();
    assert StartSet([b]) == {start};
    assert Elements([start]) == {start};
    StrictlySortedUnique(IntLess, StartDates([b]), [start]);
  }

  /** A single complete row of a selected event yields one pivot, for its start date, built
      from that row alone. */
  lemma SingleRowPivots(raw: RawRow, name: string, start: int)
    requires Complete(raw) && raw.name == Some(name) && raw.eventStart == Some(start)
    ensures Pivots([raw], [name]) == [DatePivot(start, BuildPivot(Expanded([ToBooking(raw)])))]
  {
    var b := ToBooking(raw);
    SingleRowSelected(raw, name, start);
    calc {
      Pivots([raw], [name]);
    ==
      DatePivots([b], StartDates([b]));
    == { SingletonStartDates(b, start); }
      DatePivots([b], [start]);
    == { SingleDatePivots([b], start); }
      [DatePivot(start, PartitionPivot([b], start))];
    }
  }

  lemma SingleRowSelected(raw: RawRow, name: string, start: int)
    requires Complete(raw) && raw.name == Some(name) && raw.eventStart == Some(start)
    ensures Normalize([raw]) == [ToBooking(raw)]
    ensures SelectEvents([ToBooking(raw)], [name]) == [ToBooking(raw)]
    ensures InPartition([ToBooking(raw)], start) == [ToBooking(raw)]
  {
    assert [raw][..0] == [];
    assert [ToBooking(raw)][..0] == [];
    assert name in [name];
  }

  lemma SingleDatePivots(sel: seq<Booking>, d: int)
    ensures DatePivots(sel, [d]) == [DatePivot(d, PartitionPivot(sel, d))]
  {
  }

  /** One booking of event A at hotel H, room R, from day 10 to day 13, two rooms, event
      starting on day 1: one pivot, for day 1, with the single row (A, H, R) and the
      nights 10, 11 and 12, each counting 2. */
  lemma SingleBookingScenario()
    ensures Pivots([RawRow(Some("A"), Some("H"), Some("R"), Some(10), Some(13), Some(1), Some(2))], ["A"])
      == [DatePivot(1, Some(Pivot([Key("A", "H", "R")], [10, 11, 12], [[2, 2, 2]])))]
  {
    var raw := RawRow(Some("A"), Some("H"), Some("R"), Some(10), Some(13), Some(1), Some(2));
    var b := Booking(Some("A"), Some("H"), Some("R"), 10, 13, Some(1), 2);
    var nights := seq(3, i => 10 + i);
    var counts := seq(3, _ => 2);
    assert nights == [10, 11, 12];
    assert counts == [2, 2, 2];
    calc {
      Pivots([raw], ["A"]);
    == { SingleRowPivots(raw, "A", 1); }
      [DatePivot(1, BuildPivot(Expanded([b])))];
    == { OneBookingPivot(b); }
      [DatePivot(1, Some(Pivot([Key("A", "H", "R")], nights, [counts])))];
    }
  }
}
