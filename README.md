# Room-night pivot: a Dafny model

This project models the counting core of the Room Count Pivot Generator (`appski.py`).
The tool reads a booking export and keeps the rows of the events the user selected. For
each event-start date it builds a table with one row per (event, hotel, room). The table
has one column per night, and each cell counts the rooms held that night.

The model follows the code in three stages:

1. **Normalisation** (module `Bookings`, appski.py:14-19). A raw row has optional cells.
   Dates are day numbers, with midnight times assumed. Check-in, check-out and quantity
   must be present, or the row is dropped. Every other field passes through unchanged.
2. **Selection and partitioning** (module `Partitions`, appski.py:22-31). Only rows whose
   event name is in the selection are kept, and an empty selection produces nothing. The
   kept rows are split by event-start date. The partitions are processed in ascending
   date order.
3. **Expansion and aggregation** (modules `Expansion` and `PivotTable`, appski.py:32-53).
   - `Expansion.ExpandRows` is the source's nested loop (rows → nights → units), proved
     equal to the pure `Expansion.Expanded`.
   - `PivotTable.BuildPivot` is `pivot_table(aggfunc="size", fill_value=0)`. Its rows are
     the sorted distinct keys. Its columns are the sorted distinct nights. Each cell is
     the size of its group in the multiset of unit-nights, 0 when the group is empty.

`Ordering` holds the orderings used: Python's code-point order on strings, the tuple order
on (event, hotel, room) keys, and the order on integers. It also holds the "sorted distinct
values" operation that `sorted(x.unique())` and pandas' group sorting perform.

The source is followed where it differs from the written design of the tool:

- The design says a missing hotel or room is filled with "Unknown Hotel" or "Unknown
  Room". The code does not do this. Such rows are still expanded. Their unit-nights are
  then dropped by `pivot_table`, because pandas' grouping drops missing keys. The model
  does the same (`PivotTable.KeyOf`). Totals are therefore stated over the rows whose
  event, hotel and room are all present (`Partitions.GroupedTotal`).
- The design says a negative quantity is dropped. The code keeps it, and `range(q)` is
  empty for it. The model keeps the row, and the row contributes no unit-night
  (`Expansion.Units`).
- The design has a schema check, and an explicit signal for an empty partition. The code
  has neither. The model returns `None` for a partition with no groupable unit-night; what
  the source does in that case is listed under "## Left out".

## Model

| member | source | states |
|---|---|---|
| `Ordering.SortedDistinct` | appski.py:30 | the result is strictly ascending and holds exactly the values of the input (`sorted(... .unique())`) |
| `Ordering.StrictlySortedUnique` | appski.py:30 | two strictly ascending sequences with the same values are equal, so the sorted output is fully determined |
| `Ordering.StringLessIsStrictTotalOrder` | appski.py:22 | Python's code-point string order is irreflexive, transitive and total |
| `Bookings.Normalize` | appski.py:18 | normalisation never produces more rows than it reads |
| `Bookings.NormalizeMembership` | appski.py:15-19 | a booking is produced iff some input row has check-in, check-out and quantity present and carries exactly its fields |
| `Bookings.NormalizeAppend` | appski.py:18 | each row is kept or dropped on its own, in input order |
| `Bookings.DroppedRowIsInvisible` | appski.py:18 | a row missing check-in, check-out or quantity is dropped and does not change the output for the other rows |
| `Bookings.NormalizeKeepsComplete` | appski.py:15-19 | complete rows pass through one for one, unchanged |
| `Expansion.ExpandRows` | appski.py:32-43 | the nested row/night/unit loop appends exactly the unit-nights of the specification `Expanded`, in order |
| `Expansion.BookingUnitsCount` | appski.py:35-37 | a booking contributes quantity × (check-out − check-in) unit-nights, and none when check-out <= check-in, whatever the quantity |
| `Expansion.BookingUnitsShape` | appski.py:35-43 | every unit-night's night d has check-in <= d < check-out (the check-out day is never counted), and it carries the booking's event, hotel and room unchanged |
| `Expansion.BookingUnitsPerNight` | appski.py:35-37 | each night of the stay appears exactly quantity times, and no other night appears |
| `Expansion.ExpandedCount` | appski.py:34-43 | a partition expands to Σ quantity × nights unit-nights |
| `Expansion.ExpandedProvenance` | appski.py:34-43 | every unit-night comes from one of the partition's bookings, on a night of its stay |
| `PivotTable.KeyLessIsStrictTotalOrder` | appski.py:49 | the (event, hotel, room) tuple order is a strict total order |
| `PivotTable.GroupKeys` | appski.py:49 | the keys listed are exactly those of the unit-nights with all three index fields present |
| `PivotTable.GroupDates` | appski.py:50 | the nights listed are exactly those of the grouped unit-nights |
| `PivotTable.BuildPivot` | appski.py:45-53 | `None` iff no unit-night can be grouped; otherwise rows are the distinct keys ascending, columns the distinct nights ascending, every row has a cell per column, and each cell is the number of unit-nights with that key and night (0 when there are none) |
| `PivotTable.CellCountIsMultiplicity` | appski.py:51 | the `size` aggregate of a group equals that unit-night's multiplicity in the multiset of unit-nights |
| `PivotTable.PivotIsDeterministic` | appski.py:48-53 | any two tables that meet the pivot's description for the same unit-nights are identical |
| `PivotTable.MatrixTotal` | appski.py:51-52 | over distinct rows and columns that cover every group, the cells sum to the number of grouped unit-nights |
| `PivotTable.PivotTotal` | appski.py:48-53 | the grand total of the pivot equals the number of grouped unit-nights; there is no pivot iff that number is 0 |
| `Partitions.EventNames` | appski.py:22 | the selectable names are strictly ascending and are exactly the names present in the rows |
| `Partitions.SelectEventsAppend` | appski.py:26 | the selection filter judges each row on its own: it distributes over concatenation, so kept rows stay in input order |
| `Partitions.SelectEventsCount` | appski.py:26 | a row of a selected event is kept once per occurrence, so identical rows all count; no other row is kept |
| `Partitions.SelectEventsMembership` | appski.py:26 | a row is kept iff its name is present and in the selection |
| `Partitions.StartDates` | appski.py:30 | the partition dates are strictly ascending and are exactly the start dates present in the selected rows |
| `Partitions.InPartitionMembership` | appski.py:31 | a row is in the partition for d iff its start date is present and equal to d |
| `Partitions.InPartitionAppend` | appski.py:31 | the date filter judges each row on its own: it distributes over concatenation, so partition rows stay in input order |
| `Partitions.InPartitionCount` | appski.py:31 | a row starting on d is in the partition once per occurrence; no other row is |
| `Partitions.GeneratePivots` | appski.py:14-53 | the run produces nothing for an empty selection, and otherwise the specification `Pivots`: one (date, pivot) per partition date, in order |
| `Partitions.GroupedExpansion` | appski.py:34-53 | the grouped unit-nights of a partition number Σ quantity × nights over its rows with event, hotel and room present |
| `Partitions.PartitionTotal` | appski.py:32-53 | a partition's pivot totals Σ quantity × nights over its rows with event, hotel and room present; it has no pivot iff that sum is 0 |
| `Partitions.ExpandedMultiplicity` | appski.py:34-51 | the unit-nights of key k on night d number Σ quantity over the rows of key k whose stay covers d |
| `Partitions.PartitionCell` | appski.py:32-53 | every cell of a partition's pivot is the number of rooms its rows book for that key on that night |
| `Partitions.PivotsAscending` | appski.py:30 | the pivots come in strictly ascending date order |
| `Partitions.PivotDates` | appski.py:25-30 | a pivot exists for date d iff the selection is non-empty and some normalised row of a selected event starts on d |
| `Partitions.PartitionRows` | appski.py:26-31 | the pivot for d is built from exactly the normalised rows of selected events that start on d, each as often as it occurs in the normalised rows, so each row is expanded only in its own partition |
| `Partitions.OneBookingPivot` | appski.py:32-53 | one booking with a non-empty stay, a positive quantity and all index fields present pivots to one row, one column per night of the stay ascending, and the quantity in every cell |
| `Partitions.SingleRowPivots` | appski.py:18-31 | one complete row of a selected event yields exactly one pivot, for its start date, built from that row alone |
| `Partitions.SingleBookingScenario` | appski.py:14-53 | event A, hotel H, room R, nights 10 to 13, quantity 2, start date 1 yields one pivot for date 1 with row (A, H, R), columns 10, 11 and 12, and cells 2, 2 and 2 |

## Left out

- Streamlit page setup, title, uploader, multiselect, table display, subheaders and download button (appski.py:1-9, 23, 55-65): these are presentation only. The selection is a parameter of `Partitions.GeneratePivots`.
- CSV reading (appski.py:12) and CSV serialisation and file naming (appski.py:59-63): these are library I/O. The pivot is modelled as rows, columns and cells, not as the flattened frame that `reset_index` produces.
- Date parsing by `pd.to_datetime` (appski.py:15-17): the parse result is an input, `Option<int>` day numbers with midnight times. Time-of-day components are not modelled.
- `astype(int)` (appski.py:19): the quantity is taken as an already-parsed integer. A non-numeric quantity makes the source raise, and float truncation is not modelled.
- Rows with a missing event-start date: the source's list of dates then holds a missing date (NaT). Its filter `== NaT` matches no row, so that iteration reaches `pivot_table` on an empty frame (next line). The model emits no entry at all for the missing date, and how NaT sorts among the dates is not modelled. Such a row equals no date, so it is never expanded (`Partitions.InPartitionMembership`).
- A partition whose expansion is empty (every stay empty or every quantity zero or negative, appski.py:32-45): `pivot_table` on the empty frame raises in the source. The exception leaves the loop at appski.py:30, so no pivot for any later date is produced. The model instead returns `None` for that date and goes on with the later dates.
- A partition whose expansion is not empty but whose unit-nights all lack an event, hotel or room: pandas' grouping drops every unit-night, and what `pivot_table` then returns or raises is not modelled. The model returns `None` for that date and goes on.
- The unused `all_pivot_frames` list (appski.py:29).
- Bookings.Normalize: its own contract only bounds the output length. What it keeps and how is stated by `Bookings.NormalizeMembership`, `Bookings.NormalizeAppend`, `Bookings.DroppedRowIsInvisible` and `Bookings.NormalizeKeepsComplete`.
- Memory use of the expansion, and the alternative of streaming counts into the matrix, are not modelled. Only the expansion's result is modelled.
