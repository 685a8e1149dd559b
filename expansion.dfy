/**
  Night expansion (appski.py:32-43).

  Every booking of a partition becomes one unit-night per night of its stay and per unit
  of its quantity. The nights are `pd.date_range(check_in, check_out - 1 day)`: the
  days d with check_in <= d < check_out, none when check_out <= check_in. The units are
  `range(quantity)`: none when the quantity is zero or negative.
 */
module Expansion {
  import opened Wrappers
  import opened Bookings

  /** One occupied room-night: the booking's event, hotel and room, and the night. */
  datatype UnitNight = UnitNight(event: Option<string>, hotel: Option<string>, room: Option<string>, stay: int)

  /** The unit-night of booking `b` on night `d`. */
  function NightOf(b: Booking, d: int): UnitNight
  {
    UnitNight(b.name, b.hotel, b.room, d)
  }

  /** The number of nights `pd.date_range` yields for the stay. */
  function Nights(b: Booking): nat
  {
    if b.checkOut > b.checkIn then b.checkOut - b.checkIn else 0
  }

  /** The number of iterations of `range(quantity)`. */
  function Units(b: Booking): nat
  {
    if b.quantity > 0 then b.quantity else 0
  }

  /** `n` copies of one unit-night. */
  function Copies(u: UnitNight, n: nat): seq<UnitNight>
  {
    seq(n, _ => u)
  }

  /** The unit-nights of `b` for the nights before `d`, in the order the loops append them. */
  function UnitsBefore(b: Booking, d: int): seq<UnitNight>
    decreases d - b.checkIn
  {
    if d <= b.checkIn then []
    else UnitsBefore(b, d - 1) + Copies(NightOf(b, d - 1), Units(b))
  }

  /** All unit-nights one booking contributes. */
  function BookingUnits(b: Booking): seq<UnitNight>
  {
    UnitsBefore(b, b.checkOut)
  }

  /** All unit-nights of a partition's bookings, in the order the loops append them. */
  function Expanded(bs: seq<Booking>): seq<UnitNight>
  {
    if bs == [] then []
    else Expanded(bs[..|bs| - 1]) + BookingUnits(bs[|bs| - 1])
  }

  /** Σ quantity × nights over the bookings. */
  function TotalUnitNights(bs: seq<Booking>): nat
  {
    if bs == [] then 0
    else TotalUnitNights(bs[..|bs| - 1]) + Units(bs[|bs| - 1]) * Nights(bs[|bs| - 1])
  }

  /** The nested loops of the source: rows, then nights, then units, appending each unit-night. */
  method ExpandRows(bs: seq<Booking>) returns (expanded: seq<UnitNight>)
    ensures expanded == Expanded(bs)
  {
    expanded := [];
    for i := 0 to |bs|
      invariant expanded == Expanded(bs[..i])
    {
      var b := bs[i];
      var night := b.checkIn;
      while night <= b.checkOut - 1
        invariant b.checkIn <= night
        invariant night <= b.checkOut || night == b.checkIn
        invariant expanded == Expanded(bs[..i]) + UnitsBefore(b, night)
        decreases b.checkOut - night
      {
        var copies := if b.quantity > 0 then b.quantity else 0;
        for k := 0 to copies
          invariant expanded == Expanded(bs[..i]) + UnitsBefore(b, night) + Copies(NightOf(b, night), k)
        {
          expanded := expanded + [UnitNight(b.name, b.hotel, b.room, night)];
          assert Copies(NightOf(b, night), k) + [NightOf(b, night)] == Copies(NightOf(b, night), k + 1);
        }
        night := night + 1;
      }
      assert BookingUnits(b) == UnitsBefore(b, night);
      assert bs[..i + 1][..i] == bs[..i];
    }
    assert bs[..|bs|] == bs;
  }

  lemma {:induction false} UnitsBeforeLength(b: Booking, d: int)
    requires b.checkIn <= d
    ensures |UnitsBefore(b, d)| == Units(b) * (d - b.checkIn)
    decreases d - b.checkIn
  {
    if d > b.checkIn {
      UnitsBeforeLength(b, d - 1);
      assert Units(b) * (d - b.checkIn) == Units(b) * (d - 1 - b.checkIn) + Units(b);
    }
  }

  /** A booking contributes exactly quantity × (check_out − check_in) unit-nights, and none
      when the stay is empty or the quantity is not positive. */
  lemma BookingUnitsCount(b: Booking)
    ensures |BookingUnits(b)| == Units(b) * Nights(b)
    ensures b.checkOut <= b.checkIn ==> BookingUnits(b) == []
  {
    if b.checkOut > b.checkIn {
      UnitsBeforeLength(b, b.checkOut);
    }
  }

  lemma {:induction false} UnitsBeforeShape(b: Booking, d: int, u: UnitNight)
    requires u in UnitsBefore(b, d)
    ensures b.checkIn <= u.stay < d
    ensures u == NightOf(b, u.stay)
    decreases d - b.checkIn
  {
    if u !in Copies(NightOf(b, d - 1), Units(b)) {
      UnitsBeforeShape(b, d - 1, u);
    }
  }

  /** Every unit-night lies in [check_in, check_out) and carries the booking's event, hotel
      and room unchanged; the check-out day itself is never counted. */
  lemma BookingUnitsShape(b: Booking, u: UnitNight)
    requires u in BookingUnits(b)
    ensures b.checkIn <= u.stay < b.checkOut
    ensures u.event == b.name && u.hotel == b.hotel && u.room == b.room
  {
    UnitsBeforeShape(b, b.checkOut, u);
  }

  lemma {:induction false} UnitsBeforePerNight(b: Booking, d: int, night: int)
    ensures multiset(UnitsBefore(b, d))[NightOf(b, night)] ==
      if b.checkIn <= night < d then Units(b) else 0
    decreases d - b.checkIn
  {
    if d > b.checkIn {
      UnitsBeforePerNight(b, d - 1, night);
      assert multiset(Copies(NightOf(b, d - 1), Units(b)))[NightOf(b, night)] ==
        if night == d - 1 then Units(b) else 0 by {
        CopiesMultiplicity(NightOf(b, d - 1), Units(b), NightOf(b, night));
      }
    }
  }

  lemma {:induction false} CopiesMultiplicity(u: UnitNight, n: nat, v: UnitNight)
    ensures multiset(Copies(u, n))[v] == if u == v then n else 0
  {
    if n > 0 {
      CopiesMultiplicity(u, n - 1, v);
      assert Copies(u, n) == Copies(u, n - 1) + [u];
    }
  }

  /** Each night of the stay holds exactly `quantity` identical unit-nights of the booking;
      any other night holds none. */
  lemma BookingUnitsPerNight(b: Booking, night: int)
    ensures multiset(BookingUnits(b))[NightOf(b, night)] ==
      if b.checkIn <= night < b.checkOut then Units(b) else 0
  {
    UnitsBeforePerNight(b, b.checkOut, night);
  }

  /** The expansion of a partition holds Σ quantity × nights unit-nights. */
  lemma {:induction false} ExpandedCount(bs: seq<Booking>)
    ensures |Expanded(bs)| == TotalUnitNights(bs)
  {
    if bs != [] {
      ExpandedCount(bs[..|bs| - 1]);
      BookingUnitsCount(bs[|bs| - 1]);
    }
  }

  /** Every unit-night of a partition comes from one of its bookings, on a night of its stay. */
  lemma {:induction false} ExpandedProvenance(bs: seq<Booking>, u: UnitNight)
    requires u in Expanded(bs)
    ensures exists b :: b in bs && u in BookingUnits(b) && b.checkIn <= u.stay < b.checkOut
  {
    var init, last := bs[..|bs| - 1], bs[|bs| - 1];
    assert bs == init + [last];
    if u in BookingUnits(last) {
      BookingUnitsShape(last, u);
    } else {
      ExpandedProvenance(init, u);
      var b :| b in init && u in BookingUnits(b) && b.checkIn <= u.stay < b.checkOut;
      assert b in bs;
    }
  }
}
