/** The Booking document: its enums, its flight or hotel details, and the
    booking-number generator that runs before every save. */
module BookingModel {
  import opened Common
  import opened Text
  import FlightModel
  import HotelModel

  datatype BookingType = FlightType | HotelType

  datatype PaymentStatus = PaymentPending | PaymentCompleted | PaymentFailed | PaymentRefunded

  datatype PaymentMethod = Card | Upi | Netbanking

  datatype BookingStatus = Pending | Confirmed | Cancelled | Completed

  datatype RefundStatus = NoRefund | RefundPending | RefundProcessed

  datatype Passenger = Passenger(name: string, age: int, passport: string)

  /** `guests: {adults, children}`, defaulting to one adult. */
  datatype Guests = Guests(adults: int, children: int)

  /** The type-specific half of a booking. */
  datatype Details =
    | FlightDetails(
        flight: Id,
        seatNumbers: seq<string>,
        flightClass: FlightModel.SeatClass,
        passengers: seq<Passenger>)
    | HotelDetails(
        hotel: Id,
        roomNumbers: seq<string>,
        roomType: HotelModel.RoomType,
        checkIn: int,
        checkOut: int,
        guests: Guests)
  {
    function Type(): BookingType {
      if FlightDetails? then FlightType else HotelType
    }
  }

  /** A booking. `bookingNumber == ""` stands for a number not yet generated, and
      `agent` is the agent's user id, not the Agent record's id. */
  datatype Booking = Booking(
    bookingNumber: string,
    user: Id,
    agent: Option<Id>,
    details: Details,
    totalAmount: real,
    commission: real,
    paymentStatus: PaymentStatus,
    paymentMethod: PaymentMethod,
    paymentId: Option<string>,
    bookingStatus: BookingStatus,
    cancelledAt: Option<int>,
    cancellationReason: Option<string>,
    refundAmount: Option<real>,
    refundStatus: RefundStatus)

  /** Schema bounds: `totalAmount >= 0`. */
  predicate SchemaValid(b: Booking) {
    b.totalAmount >= 0.0
  }

  type Base36Digit = d: nat | d < 36

  /** `Math.random().toString(36)` for a fraction whose base-36 digits are `digits`:
      `"0"` for zero, otherwise `"0."` followed by the digits. */
  function RandomText(digits: seq<Base36Digit>): string {
    if |digits| == 0 then "0"
    else "0." + seq(|digits|, i requires 0 <= i < |digits| => DigitChar(digits[i]))
  }

  /** `Math.random().toString(36).substring(2, 6).toUpperCase()`. */
  function RandomPart(digits: seq<Base36Digit>): string {
    Upper(Substring(RandomText(digits), 2, 6))
  }

  /** `FL` for flight bookings, `HT` otherwise. */
  function Prefix(t: BookingType): string {
    if t == FlightType then "FL" else "HT"
  }

  /** `Date.now().toString(36).toUpperCase()`. */
  function TimePart(now: nat): string {
    Upper(Show(now, 36))
  }

  /** `${prefix}-${timestamp}-${random}`. */
  function NumberFor(t: BookingType, now: nat, digits: seq<Base36Digit>): string {
    Prefix(t) + "-" + TimePart(now) + "-" + RandomPart(digits)
  }

  lemma UpperKeepsAlnum(s: string)
    requires AllAlnum(s)
    ensures AllAlnum(Upper(s))
  {
  }

  /** The random part has at most four characters, all letters or digits; it has four
      exactly when the fraction has at least four base-36 digits. */
  lemma RandomPartShape(digits: seq<Base36Digit>)
    ensures |RandomPart(digits)| <= 4
    ensures AllAlnum(RandomPart(digits))
    ensures |digits| >= 4 <==> |RandomPart(digits)| == 4
  {
    var text := RandomText(digits);
    if |digits| > 0 {
      assert forall i | 2 <= i < |text| :: text[i] == DigitChar(digits[i - 2]);
    }
    UpperKeepsAlnum(Substring(text, 2, 6));
  }

  /** Splitting a generated number on `-` gives back exactly its three parts. */
  lemma NumberSplits(t: BookingType, now: nat, digits: seq<Base36Digit>)
    ensures Split(NumberFor(t, now, digits), '-') == [Prefix(t), TimePart(now), RandomPart(digits)]
  {
    var p, ts, rnd := Prefix(t), TimePart(now), RandomPart(digits);
    UpperKeepsAlnum(Show(now, 36));
    RandomPartShape(digits);
    assert '-' !in p;
    AlnumExcludes(ts, '-');
    AlnumExcludes(rnd, '-');
    assert NumberFor(t, now, digits) == p + ['-'] + (ts + ['-'] + rnd);
    SplitJoin(p, ts + ['-'] + rnd, '-');
    SplitJoin(ts, rnd, '-');
    SplitWhole(rnd, '-');
  }

  /** Two equal generated numbers come from the same booking type and the same
      timestamp, so bookings numbered at different milliseconds never collide. */
  lemma NumberDeterminesTypeAndTime(t1: BookingType, now1: nat, d1: seq<Base36Digit>,
                                    t2: BookingType, now2: nat, d2: seq<Base36Digit>)
    requires NumberFor(t1, now1, d1) == NumberFor(t2, now2, d2)
    ensures t1 == t2
    ensures now1 == now2
  {
    NumberSplits(t1, now1, d1);
    NumberSplits(t2, now2, d2);
    assert Prefix(t1) == Prefix(t2);
    assert TimePart(now1) == TimePart(now2);
    UpperShowInjective(now1, now2, 36);
  }

  /** The `pre('save')` hook: a number is generated only while none is set. */
  function AssignNumber(b: Booking, now: nat, digits: seq<Base36Digit>): (r: Booking)
    ensures r.bookingNumber != ""
    ensures r == b.(bookingNumber := r.bookingNumber)
    ensures b.bookingNumber != "" ==> r.bookingNumber == b.bookingNumber
    ensures b.bookingNumber == "" ==>
      Split(r.bookingNumber, '-') == [Prefix(b.details.Type()), TimePart(now), RandomPart(digits)]
  {
    if b.bookingNumber != "" then b
    else
      NumberSplits(b.details.Type(), now, digits);
      b.(bookingNumber := NumberFor(b.details.Type(), now, digits))
  }

  /** The prefix of a generated number is `FL` exactly for flight bookings. */
  lemma PrefixIsFlightMarker(b: Booking, now: nat, digits: seq<Base36Digit>)
    requires b.bookingNumber == ""
    ensures Split(AssignNumber(b, now, digits).bookingNumber, '-')[0] == "FL" <==> b.details.FlightDetails?
    ensures Split(AssignNumber(b, now, digits).bookingNumber, '-')[0] == "HT" <==> b.details.HotelDetails?
  {
  }

  /** Later saves keep the number the first save generated. */
  lemma NumberAssignedOnce(b: Booking, now1: nat, d1: seq<Base36Digit>, now2: nat, d2: seq<Base36Digit>)
    ensures AssignNumber(AssignNumber(b, now1, d1), now2, d2) == AssignNumber(b, now1, d1)
  {
  }
}
