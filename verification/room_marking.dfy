/** What the hotel booking and cancellation handlers do to a hotel's room list: the
    validation loop with its date-conflict test, the marking loop that holds the rooms
    for the stay and the release loop that frees them.

    The lookups differ in scope: validation finds a room by number and type, while
    marking and release find it by number alone. A `scope` of `None` stands for a lookup
    by number alone, `Some(t)` for a lookup restricted to type `t`. */
module RoomMarking {
  import opened Common
  import opened HotelModel

  /** Whether room `r` is inside the lookup scope. */
  predicate InScope(r: Room, scope: Option<RoomType>) {
    scope.None? || r.roomType == scope.value
  }

  /** `rooms.find(r => r.roomNumber === n [&& r.roomType === t])`, as a position. */
  function FindRoom(rooms: seq<Room>, n: string, scope: Option<RoomType>): (r: Option<nat>)
    ensures r.Some? ==> r.value < |rooms| && rooms[r.value].roomNumber == n && InScope(rooms[r.value], scope)
    ensures r.Some? ==> forall j | 0 <= j < r.value :: !(rooms[j].roomNumber == n && InScope(rooms[j], scope))
    ensures r.None? ==> forall j | 0 <= j < |rooms| :: !(rooms[j].roomNumber == n && InScope(rooms[j], scope))
  {
    if |rooms| == 0 then None
    else if rooms[0].roomNumber == n && InScope(rooms[0], scope) then Some(0)
    else match FindRoom(rooms[1..], n, scope)
      case None => None
      case Some(k) => Some(k + 1)
  }

  /** No two rooms inside the scope share a number. With scope `None` this is uniqueness of
      room numbers across the hotel; with `Some(t)`, uniqueness within type `t`. */
  predicate UniqueWithin(rooms: seq<Room>, scope: Option<RoomType>) {
    forall i, j | 0 <= i < j < |rooms| && InScope(rooms[i], scope) && InScope(rooms[j], scope) ::
      rooms[i].roomNumber != rooms[j].roomNumber
  }

  /** Under uniqueness, a lookup finds the one room in scope carrying that number. */
  lemma FindRoomUnique(rooms: seq<Room>, k: nat, scope: Option<RoomType>)
    requires UniqueWithin(rooms, scope)
    requires k < |rooms| && InScope(rooms[k], scope)
    ensures FindRoom(rooms, rooms[k].roomNumber, scope) == Some(k)
  {
  }

  /** Uniqueness across the hotel implies uniqueness within every type. */
  lemma UniqueNarrows(rooms: seq<Room>, t: RoomType)
    requires UniqueWithin(rooms, None)
    ensures UniqueWithin(rooms, Some(t))
  {
  }

  /** Whether a flagged room refuses the requested stay. The loop as written refuses it
      only when its stay overlaps the requested one; a `strict` loop refuses every flagged
      room, since a room document holds one stay at a time. */
  predicate Refuses(r: Room, checkIn: int, checkOut: int, strict: bool) {
    r.isBooked && (strict || Overlaps(r, checkIn, checkOut))
  }

  /** Room `n` of type `t` exists and does not refuse the stay `[checkIn, checkOut]`: it
      passes the validation loop. */
  predicate RoomFree(rooms: seq<Room>, n: string, t: RoomType, checkIn: int, checkOut: int, strict: bool) {
    var r := FindRoom(rooms, n, Some(t));
    r.Some? && !Refuses(rooms[r.value], checkIn, checkOut, strict)
  }

  /** The validation loop: `None` when every requested room passes, otherwise the refusal
      for the first one that does not. */
  function CheckRooms(rooms: seq<Room>, t: RoomType, nums: seq<string>, checkIn: int, checkOut: int, strict: bool)
    : (r: Option<BadRequestReason>)
    ensures r.None? <==> forall k | 0 <= k < |nums| :: RoomFree(rooms, nums[k], t, checkIn, checkOut, strict)
    ensures r.Some? ==> exists k | 0 <= k < |nums| ::
      r.value == (if FindRoom(rooms, nums[k], Some(t)).None? then UnitNotFound(nums[k]) else UnitBooked(nums[k]))
    ensures |nums| >= 1 && FindRoom(rooms, nums[0], Some(t)).None? ==> r == Some(UnitNotFound(nums[0]))
    ensures |nums| >= 1 && FindRoom(rooms, nums[0], Some(t)).Some? &&
            Refuses(rooms[FindRoom(rooms, nums[0], Some(t)).value], checkIn, checkOut, strict) ==>
      r == Some(UnitBooked(nums[0]))
  {
    if |nums| == 0 then None
    else match FindRoom(rooms, nums[0], Some(t))
      case None => Some(UnitNotFound(nums[0]))
      case Some(i) =>
        if Refuses(rooms[i], checkIn, checkOut, strict) then Some(UnitBooked(nums[0]))
        else
          assert forall k | 1 <= k < |nums| :: nums[k] == nums[1..][k - 1];
          CheckRooms(rooms, t, nums[1..], checkIn, checkOut, strict)
  }

  /** A strict check that passes leaves every room the marking loop can reach for a
      requested number unflagged, when numbers are unique within the type. */
  lemma StrictCheckFindsVacant(rooms: seq<Room>, t: RoomType, nums: seq<string>, checkIn: int, checkOut: int)
    requires UniqueWithin(rooms, Some(t))
    requires forall k | 0 <= k < |nums| :: RoomFree(rooms, nums[k], t, checkIn, checkOut, true)
    ensures forall j | 0 <= j < |rooms| && InScope(rooms[j], Some(t)) && rooms[j].roomNumber in nums ::
      !rooms[j].isBooked
  {
    forall j | 0 <= j < |rooms| && InScope(rooms[j], Some(t)) && rooms[j].roomNumber in nums
      ensures !rooms[j].isBooked
    {
      var k :| 0 <= k < |nums| && nums[k] == rooms[j].roomNumber;
      FindRoomUnique(rooms, j, Some(t));
      assert RoomFree(rooms, nums[k], t, checkIn, checkOut, true);
    }
  }

  /** A room held by `booking` for the stay `[checkIn, checkOut]`. */
  function Held(r: Room, booking: Id, checkIn: int, checkOut: int): Room {
    r.(isBooked := true, bookedFrom := Some(checkIn), bookedTo := Some(checkOut), bookedBy := Some(booking))
  }

  /** A room released by cancellation: flag, interval and holder all cleared. */
  function Vacated(r: Room): Room {
    r.(isBooked := false, bookedFrom := None, bookedTo := None, bookedBy := None)
  }

  /** Both lists hold the same room numbers and types, position by position. */
  predicate SameLayout(a: seq<Room>, b: seq<Room>) {
    |a| == |b| && forall i | 0 <= i < |a| :: a[i].roomNumber == b[i].roomNumber && a[i].roomType == b[i].roomType
  }

  /** The lookup reads only numbers and types, so equal layouts give equal answers. */
  lemma {:induction false} SameLayoutFind(a: seq<Room>, b: seq<Room>, n: string, scope: Option<RoomType>)
    requires SameLayout(a, b)
    ensures FindRoom(a, n, scope) == FindRoom(b, n, scope)
    decreases |a|
  {
    if |a| > 0 {
      SameLayoutFind(a[1..], b[1..], n, scope);
    }
  }

  lemma SameLayoutUnique(a: seq<Room>, b: seq<Room>, scope: Option<RoomType>)
    requires SameLayout(a, b)
    requires UniqueWithin(a, scope)
    ensures UniqueWithin(b, scope)
  {
  }

  /** One step of the marking loop: the first room in scope numbered `n` is held. */
  function MarkRoom(rooms: seq<Room>, n: string, scope: Option<RoomType>, booking: Id, checkIn: int, checkOut: int)
    : (r: seq<Room>)
    ensures SameLayout(rooms, r)
  {
    match FindRoom(rooms, n, scope)
    case None => rooms
    case Some(i) => rooms[i := Held(rooms[i], booking, checkIn, checkOut)]
  }

  /** The marking loop `roomNumbers.forEach(...)`, in request order. */
  function MarkRooms(rooms: seq<Room>, nums: seq<string>, scope: Option<RoomType>, booking: Id, checkIn: int, checkOut: int)
    : (r: seq<Room>)
    ensures SameLayout(rooms, r)
    decreases |nums|
  {
    if |nums| == 0 then rooms
    else MarkRooms(MarkRoom(rooms, nums[0], scope, booking, checkIn, checkOut), nums[1..], scope, booking, checkIn, checkOut)
  }

  /** One step of the release loop: the first room in scope numbered `n` is vacated. */
  function ReleaseRoom(rooms: seq<Room>, n: string, scope: Option<RoomType>): (r: seq<Room>)
    ensures SameLayout(rooms, r)
  {
    match FindRoom(rooms, n, scope)
    case None => rooms
    case Some(i) => rooms[i := Vacated(rooms[i])]
  }

  /** The release loop of the cancellation handler, in booking order. */
  function ReleaseRooms(rooms: seq<Room>, nums: seq<string>, scope: Option<RoomType>): (r: seq<Room>)
    ensures SameLayout(rooms, r)
    decreases |nums|
  {
    if |nums| == 0 then rooms else ReleaseRooms(ReleaseRoom(rooms, nums[0], scope), nums[1..], scope)
  }

  /** Under uniqueness, marking holds exactly the rooms in scope whose numbers were
      requested and leaves every other room as it was. */
  lemma {:induction false} MarkRoomsPointwise(rooms: seq<Room>, nums: seq<string>, scope: Option<RoomType>,
                                              booking: Id, checkIn: int, checkOut: int)
    requires UniqueWithin(rooms, scope)
    ensures forall k | 0 <= k < |rooms| ::
      MarkRooms(rooms, nums, scope, booking, checkIn, checkOut)[k] ==
        (if InScope(rooms[k], scope) && rooms[k].roomNumber in nums then Held(rooms[k], booking, checkIn, checkOut)
         else rooms[k])
    decreases |nums|
  {
    if |nums| > 0 {
      var r1 := MarkRoom(rooms, nums[0], scope, booking, checkIn, checkOut);
      SameLayoutUnique(rooms, r1, scope);
      MarkRoomsPointwise(r1, nums[1..], scope, booking, checkIn, checkOut);
      forall k | 0 <= k < |rooms|
        ensures MarkRooms(rooms, nums, scope, booking, checkIn, checkOut)[k] ==
          (if InScope(rooms[k], scope) && rooms[k].roomNumber in nums then Held(rooms[k], booking, checkIn, checkOut)
           else rooms[k])
      {
        assert r1[k] == (if InScope(rooms[k], scope) && rooms[k].roomNumber == nums[0]
                         then Held(rooms[k], booking, checkIn, checkOut) else rooms[k]) by {
          if InScope(rooms[k], scope) && rooms[k].roomNumber == nums[0] {
            FindRoomUnique(rooms, k, scope);
          }
        }
        assert rooms[k].roomNumber in nums <==> rooms[k].roomNumber == nums[0] || rooms[k].roomNumber in nums[1..] by {
          assert nums == [nums[0]] + nums[1..];
        }
      }
    }
  }

  /** Under uniqueness, releasing vacates exactly the rooms in scope whose numbers are listed. */
  lemma {:induction false} ReleaseRoomsPointwise(rooms: seq<Room>, nums: seq<string>, scope: Option<RoomType>)
    requires UniqueWithin(rooms, scope)
    ensures forall k | 0 <= k < |rooms| ::
      ReleaseRooms(rooms, nums, scope)[k] ==
        (if InScope(rooms[k], scope) && rooms[k].roomNumber in nums then Vacated(rooms[k]) else rooms[k])
    decreases |nums|
  {
    if |nums| > 0 {
      var r1 := ReleaseRoom(rooms, nums[0], scope);
      SameLayoutUnique(rooms, r1, scope);
      ReleaseRoomsPointwise(r1, nums[1..], scope);
      forall k | 0 <= k < |rooms|
        ensures ReleaseRooms(rooms, nums, scope)[k] ==
          (if InScope(rooms[k], scope) && rooms[k].roomNumber in nums then Vacated(rooms[k]) else rooms[k])
      {
        assert r1[k] == (if InScope(rooms[k], scope) && rooms[k].roomNumber == nums[0] then Vacated(rooms[k])
                         else rooms[k]) by {
          if InScope(rooms[k], scope) && rooms[k].roomNumber == nums[0] {
            FindRoomUnique(rooms, k, scope);
          }
        }
        assert rooms[k].roomNumber in nums <==> rooms[k].roomNumber == nums[0] || rooms[k].roomNumber in nums[1..] by {
          assert nums == [nums[0]] + nums[1..];
        }
      }
    }
  }

  /** A lookup whose scope covers type `t` and is unique finds the same room as the
      validation loop's lookup by number and type. */
  lemma FindAgrees(rooms: seq<Room>, n: string, t: RoomType, scope: Option<RoomType>)
    requires scope == None || scope == Some(t)
    requires UniqueWithin(rooms, scope)
    requires FindRoom(rooms, n, Some(t)).Some?
    ensures FindRoom(rooms, n, scope) == FindRoom(rooms, n, Some(t))
  {
    FindRoomUnique(rooms, FindRoom(rooms, n, Some(t)).value, scope);
  }

  /** Holding distinct unflagged rooms of type `t` raises the booked count of `t` by their
      number and leaves the other types' counts and all type sizes unchanged. */
  lemma {:induction false} MarkRoomsCount(rooms: seq<Room>, nums: seq<string>, t: RoomType, scope: Option<RoomType>,
                                          booking: Id, checkIn: int, checkOut: int)
    requires scope == None || scope == Some(t)
    requires UniqueWithin(rooms, scope)
    requires Distinct(nums)
    requires forall k | 0 <= k < |nums| ::
      FindRoom(rooms, nums[k], Some(t)).Some? && !rooms[FindRoom(rooms, nums[k], Some(t)).value].isBooked
    ensures forall u: RoomType ::
      BookedCount(MarkRooms(rooms, nums, scope, booking, checkIn, checkOut), u) ==
        BookedCount(rooms, u) + (if u == t then |nums| else 0)
    ensures forall u: RoomType :: TypeSize(MarkRooms(rooms, nums, scope, booking, checkIn, checkOut), u) == TypeSize(rooms, u)
    decreases |nums|
  {
    if |nums| > 0 {
      var i := FindRoom(rooms, nums[0], Some(t)).value;
      FindAgrees(rooms, nums[0], t, scope);
      var r1 := MarkRoom(rooms, nums[0], scope, booking, checkIn, checkOut);
      assert r1 == rooms[i := Held(rooms[i], booking, checkIn, checkOut)];
      forall u: RoomType
        ensures BookedCount(r1, u) == BookedCount(rooms, u) + (if u == t then 1 else 0)
        ensures TypeSize(r1, u) == TypeSize(rooms, u)
      {
        BookedCountUpdate(rooms, i, Held(rooms[i], booking, checkIn, checkOut), u);
      }
      SameLayoutUnique(rooms, r1, scope);
      forall k | 0 <= k < |nums[1..]|
        ensures FindRoom(r1, nums[1..][k], Some(t)).Some? && !r1[FindRoom(r1, nums[1..][k], Some(t)).value].isBooked
      {
        var n := nums[1..][k];
        assert n == nums[k + 1];
        SameLayoutFind(rooms, r1, n, Some(t));
        var j := FindRoom(rooms, n, Some(t)).value;
        assert j != i;
      }
      MarkRoomsCount(r1, nums[1..], t, scope, booking, checkIn, checkOut);
    }
  }

  /** Vacating distinct flagged rooms of type `t` lowers the booked count of `t` by their
      number and leaves the other types' counts and all type sizes unchanged. */
  lemma {:induction false} ReleaseRoomsCount(rooms: seq<Room>, nums: seq<string>, t: RoomType, scope: Option<RoomType>)
    requires scope == None || scope == Some(t)
    requires UniqueWithin(rooms, scope)
    requires Distinct(nums)
    requires forall k | 0 <= k < |nums| ::
      FindRoom(rooms, nums[k], Some(t)).Some? && rooms[FindRoom(rooms, nums[k], Some(t)).value].isBooked
    ensures forall u: RoomType ::
      BookedCount(ReleaseRooms(rooms, nums, scope), u) + (if u == t then |nums| else 0) == BookedCount(rooms, u)
    ensures forall u: RoomType :: TypeSize(ReleaseRooms(rooms, nums, scope), u) == TypeSize(rooms, u)
    decreases |nums|
  {
    if |nums| > 0 {
      var i := FindRoom(rooms, nums[0], Some(t)).value;
      FindAgrees(rooms, nums[0], t, scope);
      var r1 := ReleaseRoom(rooms, nums[0], scope);
      assert r1 == rooms[i := Vacated(rooms[i])];
      forall u: RoomType
        ensures BookedCount(r1, u) + (if u == t then 1 else 0) == BookedCount(rooms, u)
        ensures TypeSize(r1, u) == TypeSize(rooms, u)
      {
        BookedCountUpdate(rooms, i, Vacated(rooms[i]), u);
      }
      SameLayoutUnique(rooms, r1, scope);
      forall k | 0 <= k < |nums[1..]|
        ensures FindRoom(r1, nums[1..][k], Some(t)).Some? && r1[FindRoom(r1, nums[1..][k], Some(t)).value].isBooked
      {
        var n := nums[1..][k];
        assert n == nums[k + 1];
        SameLayoutFind(rooms, r1, n, Some(t));
        var j := FindRoom(rooms, n, Some(t)).value;
        assert j != i;
      }
      ReleaseRoomsCount(r1, nums[1..], t, scope);
    }
  }

  /** Releasing the rooms a booking just held gives back the original list, provided the
      requested rooms in scope were vacant (unflagged, with no interval and no holder). */
  lemma ReleaseUndoesMark(rooms: seq<Room>, nums: seq<string>, scope: Option<RoomType>,
                          booking: Id, checkIn: int, checkOut: int)
    requires UniqueWithin(rooms, scope)
    requires forall k | 0 <= k < |rooms| && InScope(rooms[k], scope) && rooms[k].roomNumber in nums ::
      rooms[k] == Vacated(rooms[k])
    ensures ReleaseRooms(MarkRooms(rooms, nums, scope, booking, checkIn, checkOut), nums, scope) == rooms
  {
    var marked := MarkRooms(rooms, nums, scope, booking, checkIn, checkOut);
    MarkRoomsPointwise(rooms, nums, scope, booking, checkIn, checkOut);
    SameLayoutUnique(rooms, marked, scope);
    ReleaseRoomsPointwise(marked, nums, scope);
    var back := ReleaseRooms(marked, nums, scope);
    forall k | 0 <= k < |rooms| ensures back[k] == rooms[k] {
      assert marked[k].roomNumber == rooms[k].roomNumber && marked[k].roomType == rooms[k].roomType;
    }
  }
}
