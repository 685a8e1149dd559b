/**
  Row normalisation of the booking export (appski.py:14-19).

  A raw row is one line of the export after the three date columns have been parsed
  "or missing" and the quantity column read as a number or missing. Dates are day numbers
  at midnight. A row survives normalisation exactly when check-in, check-out and quantity
  are all present; every other field, present or missing, passes through unchanged.
 */
module Bookings {
  import opened Wrappers

  /** One line of the export: `name`, the hotel and room names, the three dates, the quantity. */
  datatype RawRow = RawRow(
    name: Option<string>,
    hotel: Option<string>,
    room: Option<string>,
    checkIn: Option<int>,
    checkOut: Option<int>,
    eventStart: Option<int>,
    quantity: Option<int>)

  /** A row that survived normalisation: its check-in, check-out and quantity are present. */
  datatype Booking = Booking(
    name: Option<string>,
    hotel: Option<string>,
    room: Option<string>,
    checkIn: int,
    checkOut: int,
    eventStart: Option<int>,
    quantity: int)

  /** The `dropna(subset=[check-in, check-out, quantity])` test. */
  predicate Complete(r: RawRow)
  {
    r.checkIn.Some? && r.checkOut.Some? && r.quantity.Some?
  }

  function ToBooking(r: RawRow): Booking
    requires Complete(r)
  {
    Booking(r.name, r.hotel, r.room, r.checkIn.value, r.checkOut.value, r.eventStart, r.quantity.value)
  }

  /** The raw row a booking was read from. */
  function ToRaw(b: Booking): RawRow
  {
    RawRow(b.name, b.hotel, b.room, Some(b.checkIn), Some(b.checkOut), b.eventStart, Some(b.quantity))
  }

  /** Drops incomplete rows and keeps the others, in order. */
  function Normalize(rows: seq<RawRow>): (bs: seq<Booking>)
    ensures |bs| <= |rows|
  {
    if rows == [] then []
    else
      var last := rows[|rows| - 1];
      Normalize(rows[..|rows| - 1]) + (if Complete(last) then [ToBooking(last)] else [])
  }

  /** Normalisation treats each row on its own. */
  lemma {:induction false} NormalizeAppend(a: seq<RawRow>, b: seq<RawRow>)
    ensures Normalize(a + b) == Normalize(a) + Normalize(b)
  {
    if b == [] {
      assert a + b == a;
    } else {
      var n := |b| - 1;
      assert (a + b)[..|a + b| - 1] == a + b[..n];
      NormalizeAppend(a, b[..n]);
    }
  }

  /** A row missing check-in, check-out or quantity is dropped without affecting any other row. */
  lemma DroppedRowIsInvisible(a: seq<RawRow>, r: RawRow, b: seq<RawRow>)
    requires !Complete(r)
    ensures Normalize(a + [r] + b) == Normalize(a + b)
  {
    NormalizeAppend(a + [r], b);
    NormalizeAppend(a, [r]);
    NormalizeAppend(a, b);
    assert Normalize([r]) == [] by {
      assert [r][..0] == [];
    }
  }

  /** A booking comes out of normalisation exactly when some complete row carries its fields. */
  lemma {:induction false} NormalizeMembership(rows: seq<RawRow>, b: Booking)
    ensures b in Normalize(rows) <==> exists r :: r in rows && Complete(r) && ToBooking(r) == b
  {
    if rows != [] {
      var init, last := rows[..|rows| - 1], rows[|rows| - 1];
      assert rows == init + [last];
      NormalizeMembership(init, b);
      if b in Normalize(rows) && b !in Normalize(init) {
        assert last in rows && Complete(last) && ToBooking(last) == b;
      }
      if r :| r in rows && Complete(r) && ToBooking(r) == b {
        if r != last {
          assert r in init;
        }
      }
    }
  }

  /** Rows that are already complete pass through normalisation one for one, unchanged. */
  lemma {:induction false} NormalizeKeepsComplete(bs: seq<Booking>)
    ensures Normalize(seq(|bs|, i requires 0 <= i < |bs| => ToRaw(bs[i]))) == bs
  {
    var raws := seq(|bs|, i requires 0 <= i < |bs| => ToRaw(bs[i]));
    if bs != [] {
      var n := |bs| - 1;
      assert raws[..n] == seq(n, i requires 0 <= i < n => ToRaw(bs[..n][i]));
      NormalizeKeepsComplete(bs[..n]);
      assert bs == bs[..n] + [bs[n]];
    }
  }
}
