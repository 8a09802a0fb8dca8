/** What the flight booking and cancellation handlers do to a flight's seat list:
    the validation loop over the requested seat numbers, the marking loop that books
    them and the release loop that frees them. */
module SeatMarking {
  import opened Common
  import opened FlightModel

  /** `seats.find(s => s.seatNumber === n && s.class === c)`, as a position. */
  function FindInClass(seats: seq<Seat>, n: string, c: SeatClass): (r: Option<nat>)
    ensures r.Some? ==> r.value < |seats| && seats[r.value].seatNumber == n && seats[r.value].cls == c
    ensures r.Some? ==> forall j | 0 <= j < r.value :: !(seats[j].seatNumber == n && seats[j].cls == c)
    ensures r.None? ==> forall j | 0 <= j < |seats| :: !(seats[j].seatNumber == n && seats[j].cls == c)
  {
    if |seats| == 0 then None
    else if seats[0].seatNumber == n && seats[0].cls == c then Some(0)
    else match FindInClass(seats[1..], n, c)
      case None => None
      case Some(k) => Some(k + 1)
  }

  /** `seats.find(s => s.seatNumber === n)`, as a position: the class is not consulted. */
  function FindByNumber(seats: seq<Seat>, n: string): (r: Option<nat>)
    ensures r.Some? ==> r.value < |seats| && seats[r.value].seatNumber == n
    ensures r.Some? ==> forall j | 0 <= j < r.value :: seats[j].seatNumber != n
    ensures r.None? ==> forall j | 0 <= j < |seats| :: seats[j].seatNumber != n
  {
    if |seats| == 0 then None
    else if seats[0].seatNumber == n then Some(0)
    else match FindByNumber(seats[1..], n)
      case None => None
      case Some(k) => Some(k + 1)
  }

  /** With unique numbers, the seat found by number is the seat carrying that number. */
  lemma FindByNumberUnique(seats: seq<Seat>, k: nat)
    requires UniqueSeatNumbers(seats)
    requires k < |seats|
    ensures FindByNumber(seats, seats[k].seatNumber) == Some(k)
  {
  }

  /** Seat `n` of class `c` exists and is not booked: it passes the validation loop. */
  predicate SeatFree(seats: seq<Seat>, n: string, c: SeatClass) {
    var r := FindInClass(seats, n, c);
    r.Some? && !seats[r.value].isBooked
  }

  /** Seat `n` of class `c` exists and is booked. */
  predicate SeatHeld(seats: seq<Seat>, n: string, c: SeatClass) {
    var r := FindInClass(seats, n, c);
    r.Some? && seats[r.value].isBooked
  }

  /** The validation loop: `None` when every requested seat passes, otherwise the refusal
      for the first one that does not. */
  function CheckSeats(seats: seq<Seat>, c: SeatClass, nums: seq<string>): (r: Option<BadRequestReason>)
    ensures r.None? <==> forall k | 0 <= k < |nums| :: SeatFree(seats, nums[k], c)
    ensures r.Some? ==> exists k | 0 <= k < |nums| ::
      r.value == (if FindInClass(seats, nums[k], c).None? then UnitNotFound(nums[k]) else UnitBooked(nums[k]))
  {
    if |nums| == 0 then None
    else match FindInClass(seats, nums[0], c)
      case None => Some(UnitNotFound(nums[0]))
      case Some(i) =>
        if seats[i].isBooked then Some(UnitBooked(nums[0]))
        else
          assert forall k | 1 <= k < |nums| :: nums[k] == nums[1..][k - 1];
          CheckSeats(seats, c, nums[1..])
  }

  function Booked(s: Seat, booking: Id): Seat {
    s.(isBooked := true, bookedBy := Some(booking))
  }

  function Freed(s: Seat): Seat {
    s.(isBooked := false, bookedBy := None)
  }

  /** Both lists hold the same seat numbers and classes, position by position. */
  predicate SameLayout(a: seq<Seat>, b: seq<Seat>) {
    |a| == |b| && forall i | 0 <= i < |a| :: a[i].seatNumber == b[i].seatNumber && a[i].cls == b[i].cls
  }

  /** The lookups read only numbers and classes, so equal layouts give equal answers. */
  lemma {:induction false} SameLayoutFind(a: seq<Seat>, b: seq<Seat>, n: string, c: SeatClass)
    requires SameLayout(a, b)
    ensures FindInClass(a, n, c) == FindInClass(b, n, c)
    ensures FindByNumber(a, n) == FindByNumber(b, n)
    decreases |a|
  {
    if |a| > 0 {
      SameLayoutFind(a[1..], b[1..], n, c);
    }
  }

  lemma SameLayoutUnique(a: seq<Seat>, b: seq<Seat>)
    requires SameLayout(a, b)
    requires UniqueSeatNumbers(a)
    ensures UniqueSeatNumbers(b)
  {
  }

  /** One step of the marking loop: the first seat numbered `n`, of any class, is booked. */
  function MarkSeat(seats: seq<Seat>, n: string, booking: Id): (r: seq<Seat>)
    ensures SameLayout(seats, r)
  {
    match FindByNumber(seats, n)
    case None => seats
    case Some(i) => seats[i := Booked(seats[i], booking)]
  }

  /** The marking loop `seatNumbers.forEach(...)`, in request order. */
  function MarkSeats(seats: seq<Seat>, nums: seq<string>, booking: Id): (r: seq<Seat>)
    ensures SameLayout(seats, r)
    decreases |nums|
  {
    if |nums| == 0 then seats else MarkSeats(MarkSeat(seats, nums[0], booking), nums[1..], booking)
  }

  /** One step of the release loop: the first seat numbered `n` is freed. */
  function ReleaseSeat(seats: seq<Seat>, n: string): (r: seq<Seat>)
    ensures SameLayout(seats, r)
  {
    match FindByNumber(seats, n)
    case None => seats
    case Some(i) => seats[i := Freed(seats[i])]
  }

  /** The release loop of the cancellation handler, in booking order. */
  function ReleaseSeats(seats: seq<Seat>, nums: seq<string>): (r: seq<Seat>)
    ensures SameLayout(seats, r)
    decreases |nums|
  {
    if |nums| == 0 then seats else ReleaseSeats(ReleaseSeat(seats, nums[0]), nums[1..])
  }

  /** With unique numbers, marking books exactly the seats whose numbers were requested
      and leaves every other seat as it was. */
  lemma {:induction false} MarkSeatsPointwise(seats: seq<Seat>, nums: seq<string>, booking: Id)
    requires UniqueSeatNumbers(seats)
    ensures forall k | 0 <= k < |seats| ::
      MarkSeats(seats, nums, booking)[k] ==
        (if seats[k].seatNumber in nums then Booked(seats[k], booking) else seats[k])
    decreases |nums|
  {
    if |nums| > 0 {
      var s1 := MarkSeat(seats, nums[0], booking);
      SameLayoutUnique(seats, s1);
      MarkSeatsPointwise(s1, nums[1..], booking);
      forall k | 0 <= k < |seats|
        ensures MarkSeats(seats, nums, booking)[k] ==
          (if seats[k].seatNumber in nums then Booked(seats[k], booking) else seats[k])
      {
        assert s1[k] == (if seats[k].seatNumber == nums[0] then Booked(seats[k], booking) else seats[k]) by {
          if seats[k].seatNumber == nums[0] {
            FindByNumberUnique(seats, k);
          }
        }
        assert seats[k].seatNumber in nums <==> seats[k].seatNumber == nums[0] || seats[k].seatNumber in nums[1..] by {
          assert nums == [nums[0]] + nums[1..];
        }
      }
    }
  }

  /** With unique numbers, releasing frees exactly the seats whose numbers are listed. */
  lemma {:induction false} ReleaseSeatsPointwise(seats: seq<Seat>, nums: seq<string>)
    requires UniqueSeatNumbers(seats)
    ensures forall k | 0 <= k < |seats| ::
      ReleaseSeats(seats, nums)[k] == (if seats[k].seatNumber in nums then Freed(seats[k]) else seats[k])
    decreases |nums|
  {
    if |nums| > 0 {
      var s1 := ReleaseSeat(seats, nums[0]);
      SameLayoutUnique(seats, s1);
      ReleaseSeatsPointwise(s1, nums[1..]);
      forall k | 0 <= k < |seats|
        ensures ReleaseSeats(seats, nums)[k] == (if seats[k].seatNumber in nums then Freed(seats[k]) else seats[k])
      {
        assert s1[k] == (if seats[k].seatNumber == nums[0] then Freed(seats[k]) else seats[k]) by {
          if seats[k].seatNumber == nums[0] {
            FindByNumberUnique(seats, k);
          }
        }
        assert seats[k].seatNumber in nums <==> seats[k].seatNumber == nums[0] || seats[k].seatNumber in nums[1..] by {
          assert nums == [nums[0]] + nums[1..];
        }
      }
    }
  }

  /** Booking distinct free seats of class `c` raises the booked count of `c` by their
      number and leaves the other classes' counts and all class sizes unchanged. */
  lemma {:induction false} MarkSeatsCount(seats: seq<Seat>, nums: seq<string>, booking: Id, c: SeatClass)
    requires UniqueSeatNumbers(seats)
    requires Distinct(nums)
    requires forall k | 0 <= k < |nums| :: SeatFree(seats, nums[k], c)
    ensures forall d: SeatClass ::
      BookedCount(MarkSeats(seats, nums, booking), d) == BookedCount(seats, d) + (if d == c then |nums| else 0)
    ensures forall d: SeatClass :: ClassSize(MarkSeats(seats, nums, booking), d) == ClassSize(seats, d)
    decreases |nums|
  {
    if |nums| > 0 {
      var i := FindInClass(seats, nums[0], c).value;
      FindByNumberUnique(seats, i);
      var s1 := MarkSeat(seats, nums[0], booking);
      assert s1 == seats[i := Booked(seats[i], booking)];
      forall d: SeatClass
        ensures BookedCount(s1, d) == BookedCount(seats, d) + (if d == c then 1 else 0)
        ensures ClassSize(s1, d) == ClassSize(seats, d)
      {
        BookedCountUpdate(seats, i, Booked(seats[i], booking), d);
      }
      SameLayoutUnique(seats, s1);
      forall k | 0 <= k < |nums[1..]| ensures SeatFree(s1, nums[1..][k], c) {
        var n := nums[1..][k];
        assert n == nums[k + 1];
        SameLayoutFind(seats, s1, n, c);
        var j := FindInClass(seats, n, c).value;
        assert j != i;
      }
      MarkSeatsCount(s1, nums[1..], booking, c);
    }
  }

  /** Freeing distinct booked seats of class `c` lowers the booked count of `c` by their
      number and leaves the other classes' counts and all class sizes unchanged. */
  lemma {:induction false} ReleaseSeatsCount(seats: seq<Seat>, nums: seq<string>, c: SeatClass)
    requires UniqueSeatNumbers(seats)
    requires Distinct(nums)
    requires forall k | 0 <= k < |nums| :: SeatHeld(seats, nums[k], c)
    ensures forall d: SeatClass ::
      BookedCount(ReleaseSeats(seats, nums), d) + (if d == c then |nums| else 0) == BookedCount(seats, d)
    ensures forall d: SeatClass :: ClassSize(ReleaseSeats(seats, nums), d) == ClassSize(seats, d)
    decreases |nums|
  {
    if |nums| > 0 {
      var i := FindInClass(seats, nums[0], c).value;
      FindByNumberUnique(seats, i);
      var s1 := ReleaseSeat(seats, nums[0]);
      assert s1 == seats[i := Freed(seats[i])];
      forall d: SeatClass
        ensures BookedCount(s1, d) + (if d == c then 1 else 0) == BookedCount(seats, d)
        ensures ClassSize(s1, d) == ClassSize(seats, d)
      {
        BookedCountUpdate(seats, i, Freed(seats[i]), d);
      }
      SameLayoutUnique(seats, s1);
      forall k | 0 <= k < |nums[1..]| ensures SeatHeld(s1, nums[1..][k], c) {
        var n := nums[1..][k];
        assert n == nums[k + 1];
        SameLayoutFind(seats, s1, n, c);
        var j := FindInClass(seats, n, c).value;
        assert j != i;
      }
      ReleaseSeatsCount(s1, nums[1..], c);
    }
  }

  /** Releasing the seats a booking just marked gives back the original list, provided the
      requested seats were free and held by nobody. */
  lemma ReleaseUndoesMark(seats: seq<Seat>, nums: seq<string>, booking: Id)
    requires UniqueSeatNumbers(seats)
    requires forall k | 0 <= k < |seats| && seats[k].seatNumber in nums ::
      !seats[k].isBooked && seats[k].bookedBy.None?
    ensures ReleaseSeats(MarkSeats(seats, nums, booking), nums) == seats
  {
    var marked := MarkSeats(seats, nums, booking);
    MarkSeatsPointwise(seats, nums, booking);
    SameLayoutUnique(seats, marked);
    ReleaseSeatsPointwise(marked, nums);
    var back := ReleaseSeats(marked, nums);
    assert |back| == |seats|;
    forall k | 0 <= k < |seats| ensures back[k] == seats[k] {
      assert marked[k].seatNumber == seats[k].seatNumber;
    }
  }
}
