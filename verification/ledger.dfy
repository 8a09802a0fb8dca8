/** Queries over the bookings collection, as the statistics routes issue them: a
    filter document (`{agent, bookingStatus, paymentStatus, bookingType}`, any field
    absent), the number of matching documents, and the sums of their amounts. A
    collection scan is given as the sequence of its documents. */
module Ledger {
  import opened Common
  import opened BookingModel

  /** A filter document: a present field must be equal, an absent one matches anything. */
  datatype Query = Query(
    agent: Option<Id>,
    status: Option<BookingStatus>,
    payment: Option<PaymentStatus>,
    kind: Option<BookingType>)

  const Everything := Query(None, None, None, None)

  predicate Matches(b: Booking, q: Query) {
    && (q.agent.Some? ==> b.agent == q.agent)
    && (q.status.Some? ==> b.bookingStatus == q.status.value)
    && (q.payment.Some? ==> b.paymentStatus == q.payment.value)
    && (q.kind.Some? ==> b.details.Type() == q.kind.value)
  }

  /** `countDocuments(q)`. */
  function CountWhere(rows: seq<Booking>, q: Query): nat {
    if |rows| == 0 then 0
    else CountWhere(rows[..|rows| - 1], q) + (if Matches(rows[|rows| - 1], q) then 1 else 0)
  }

  /** `$sum: '$totalAmount'` over the matching documents (zero when none match). */
  function SumAmount(rows: seq<Booking>, q: Query): real {
    if |rows| == 0 then 0.0
    else SumAmount(rows[..|rows| - 1], q) + (if Matches(rows[|rows| - 1], q) then rows[|rows| - 1].totalAmount else 0.0)
  }

  /** `$sum: '$commission'` over the matching documents. */
  function SumCommission(rows: seq<Booking>, q: Query): real {
    if |rows| == 0 then 0.0
    else SumCommission(rows[..|rows| - 1], q) + (if Matches(rows[|rows| - 1], q) then rows[|rows| - 1].commission else 0.0)
  }

  /** `find(q)`: the matching documents, in collection order. */
  function Select(rows: seq<Booking>, q: Query): (r: seq<Booking>)
    ensures forall i | 0 <= i < |r| :: Matches(r[i], q)
  {
    if |rows| == 0 then []
    else Select(rows[..|rows| - 1], q) + (if Matches(rows[|rows| - 1], q) then [rows[|rows| - 1]] else [])
  }

  /** A count is the length of the corresponding `find`, so never more than the rows. */
  lemma {:induction false} CountIsSelected(rows: seq<Booking>, q: Query)
    ensures CountWhere(rows, q) == |Select(rows, q)|
    ensures CountWhere(rows, q) <= |rows|
  {
    if |rows| > 0 {
      CountIsSelected(rows[..|rows| - 1], q);
    }
  }

  /** Narrowing a query by one more field never counts more. */
  lemma {:induction false} NarrowerCountsLess(rows: seq<Booking>, q: Query, r: Query)
    requires forall i | 0 <= i < |rows| :: Matches(rows[i], r) ==> Matches(rows[i], q)
    ensures CountWhere(rows, r) <= CountWhere(rows, q)
  {
    if |rows| > 0 {
      NarrowerCountsLess(rows[..|rows| - 1], q, r);
    }
  }

  /** Two statuses are exclusive: under a query that fixes no status, the documents in one
      status and those in another together are at most all that match. */
  lemma {:induction false} StatusesPartition(rows: seq<Booking>, q: Query, s1: BookingStatus, s2: BookingStatus)
    requires q.status.None? && s1 != s2
    ensures CountWhere(rows, q.(status := Some(s1))) + CountWhere(rows, q.(status := Some(s2))) <= CountWhere(rows, q)
  {
    if |rows| > 0 {
      StatusesPartition(rows[..|rows| - 1], q, s1, s2);
    }
  }

  /** Every booking is a flight or a hotel booking: the two type counts add up to the
      count of the query without a type. */
  lemma {:induction false} TypesPartition(rows: seq<Booking>, q: Query)
    requires q.kind.None?
    ensures CountWhere(rows, q.(kind := Some(FlightType))) + CountWhere(rows, q.(kind := Some(HotelType)))
            == CountWhere(rows, q)
  {
    if |rows| > 0 {
      TypesPartition(rows[..|rows| - 1], q);
    }
  }

  /** Sums of schema-valid bookings are never negative. */
  lemma {:induction false} AmountsNonNegative(rows: seq<Booking>, q: Query)
    ensures (forall i | 0 <= i < |rows| :: SchemaValid(rows[i])) ==> SumAmount(rows, q) >= 0.0
  {
    if |rows| > 0 {
      AmountsNonNegative(rows[..|rows| - 1], q);
    }
  }

  /** When every matching booking's commission lies between zero and its amount (as every
      booking the handlers create does), the commission total lies between zero and the
      revenue total. */
  lemma {:induction false} CommissionWithinRevenue(rows: seq<Booking>, q: Query)
    requires forall i | 0 <= i < |rows| :: Matches(rows[i], q) ==> 0.0 <= rows[i].commission <= rows[i].totalAmount
    ensures 0.0 <= SumCommission(rows, q) <= SumAmount(rows, q)
  {
    if |rows| > 0 {
      CommissionWithinRevenue(rows[..|rows| - 1], q);
    }
  }
}
