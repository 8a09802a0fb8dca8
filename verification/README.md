# Travel booking backend: inventory, bookings and their guards

This project models the core of a travel-booking backend, an Express application over MongoDB, in Dafny.

**Stored records.**
- A flight carries a list of seats. Each seat has a class tag, a booked flag and a holder.
- Each flight class (economy, business, first) has a `{total, available}` counter.
- A hotel has the same shape with rooms of three types (standard, deluxe, suite). Each room also carries the stay it is held for.
- Bookings, agents and users are the other stored records.

**The model's state.**
- The store (`Db.Store`) holds flights, hotels, bookings and users as maps keyed by document id.
- Agents are a sequence, because the handlers look them up by a secondary key, the user id: `findOne` answers the first match.
- Money is `real` and instants are integer milliseconds.

**The request handlers**, as pure functions from a store to a `Result` (a new store or an HTTP-style error):
- Booking a flight or a hotel:
  - validate the request;
  - check the resource is active and the units are free;
  - price the request;
  - charge the payment;
  - attach and credit an agent's commission;
  - mark the units as booked and lower the counter.
- Cancelling a booking:
  - check ownership and status;
  - compute the refund;
  - free the units and raise the counter;
  - debit the agent's commission, floored at zero.
- Creating flights and hotels, which generates numbered seats and rooms and initialises the counters.
- Searching flights and hotels, with their price and availability rules.
- Updating and soft-deleting flights and hotels.
- The booking-number generator `FL|HT-<base36 time>-<4 random chars>`.
- The agent routes: confirm a booking, and statistics.
- The admin routes: verify and unverify an agent, delete a user, and statistics.
- The `protect`, `authorize` and `checkAgent` middleware.

**Two revisions.** Where the handlers are defective, the booking functions take a `Revision`:
- `AsWritten` follows the code line by line;
- `Revised` is the evidently intended behaviour.

"## Findings" gives each defect together with the input that exposes it. The inventory properties are proved for `Revised`, and for `AsWritten` wherever it already behaves.

**Outside inputs.** Parameters stand in for what comes from outside:
- the payment gateway's answer and the new document id (`Bookings.Env`);
- the clock (`now`);
- `Math.random()` (a list of base-36 digits);
- `jwt.verify` (a function from token to user id);
- the text and date conditions of the search queries (a predicate `matches`);
- the result of a collection scan (a sequence of documents).

**Files.**
- Data model: `common.dfy`, `text.dfy`, `flight_model.dfy`, `hotel_model.dfy`, `agent_model.dfy`, `booking_model.dfy`, `store.dfy`.
- Middleware: `auth.dfy`.
- Unit marking: `seat_marking.dfy`, `room_marking.dfy`.
- Routes: `flights.dfy`, `hotels.dfy`, `bookings.dfy`, `agents.dfy`, `admin.dfy`.
- Queries over the bookings collection: `ledger.dfy`.
- Properties across calls: `booking_properties.dfy`.
- Defects: `findings.dfy`.

## Model

| member | source | states |
|---|---|---|
| Text.ParseUpper | backend/models/Booking.js:102-103 | upper-casing a base-36 numeral does not change the number it reads back as, so the upper-cased timestamp part still denotes the timestamp |
| Text.Show | backend/models/Booking.js:102 | a base-36 rendering of a number is non-empty and alphanumeric, so it holds no `-` |
| Text.ParseShow | backend/models/Booking.js:102 | reading back the base-36 rendering gives the original number (round trip) |
| Text.UpperShowInjective | backend/models/Booking.js:102 | distinct timestamps give distinct upper-cased base-36 renderings |
| Text.UnitLabelDistinct | backend/routes/flights.js:193-209 | seat or room labels `<initial><i>` differ when the numbers differ or the initials differ |
| Text.Split | backend/models/Booking.js:101-104 | splitting always gives at least one part |
| Text.SplitJoin | backend/models/Booking.js:101-104 | splitting `a-b` where `a` holds no separator gives `a` followed by the parts of `b` |
| FlightModel.EnumKeysResolve | backend/models/Flight.js:57-83 | with keys `${class}Seats`/`${class}Price`, economy and business resolve to their fields, and first class (`firstSeats`, `firstPrice`) resolves to nothing |
| FlightModel.SchemaKeysResolve | backend/models/Flight.js:57-83 | with the schema's names (`firstClassSeats`, `firstClassPrice`) every class resolves, and writing a counter changes only that class |
| FlightModel.KeysResolve | backend/routes/bookings.js:46-53 | whenever a naming resolves a class, the lookup reads that class's counter and price, and the write touches only that counter |
| FlightModel.BookedWithinClass | backend/models/Flight.js:8-16 | a class never has more booked seats than seats |
| FlightModel.NoOverbooking | backend/models/Flight.js:72-83 | on a consistent flight every class counter lies between 0 and its total |
| HotelModel.KeysResolve | backend/models/Hotel.js:54-80 | `${type}Rooms`/`${type}Price` name the schema's fields for every room type, and writing a counter changes only that type |
| AgentModel.NewAgent | backend/models/Agent.js:33-46 | a new agent record is unverified, with commission rate 10, zero earnings and no approval stamp |
| AgentModel.FindByUser | backend/routes/bookings.js:126-132 | the lookup by user id answers the first record of that user, or none when no record has it |
| AgentModel.FindByUserUnique | backend/models/Agent.js:4-9 | with user ids unique, the lookup by a record's user id finds exactly that record |
| AgentModel.CommissionBounded | backend/routes/bookings.js:86-94 | a rate within the schema's 0..100 gives a commission between 0 and the total |
| BookingModel.RandomPartShape | backend/models/Booking.js:103 | the random part has at most four alphanumeric characters, and exactly four when the fraction has four digits |
| BookingModel.NumberSplits | backend/models/Booking.js:101-104 | a generated number splits on `-` into exactly prefix, timestamp and random part |
| BookingModel.NumberDeterminesTypeAndTime | backend/models/Booking.js:101-104 | equal booking numbers come from the same booking type and the same timestamp |
| BookingModel.AssignNumber | backend/models/Booking.js:98-106 | the pre-save hook leaves a booking with a number, keeps an existing one, and changes no other field |
| BookingModel.PrefixIsFlightMarker | backend/models/Booking.js:101 | the number starts with `FL` exactly for flight bookings and with `HT` exactly for hotel bookings |
| BookingModel.NumberAssignedOnce | backend/models/Booking.js:99-100 | a second save does not renumber a booking |
| Auth.BearerToken | backend/middleware/auth.js:8-10 | a token exists only when the header starts with `Bearer`; it is non-empty and holds no space |
| Auth.BearerRoundTrip | backend/middleware/auth.js:8-10 | the header `Bearer <t>` yields the token `t` for every non-empty `t` without spaces |
| Auth.Protect | backend/middleware/auth.js:4-40 | every refusal is 401; a missing token is refused; success happens exactly when the token verifies to a stored user, and answers that user |
| Auth.Authorize | backend/middleware/auth.js:42-52 | passes exactly when the role is listed; otherwise 403 |
| Auth.CheckAgent | backend/middleware/auth.js:54-81 | refusals are 403; plain users are always refused and admins always pass |
| Auth.CheckAgentVerified | backend/middleware/auth.js:63-73 | with unique agent records, an agent passes exactly when its record exists and is verified |
| SeatMarking.FindInClass | backend/routes/bookings.js:55-69 | the seat lookup answers the first seat with that number and class, or none when there is no such seat |
| SeatMarking.FindByNumber | backend/routes/bookings.js:114-122 | the marking lookup answers the first seat with that number, whatever its class |
| SeatMarking.CheckSeats | backend/routes/bookings.js:55-69 | validation passes exactly when every requested seat exists in the class and is free; otherwise it names a failing seat |
| SeatMarking.MarkSeatsPointwise | backend/routes/bookings.js:114-122 | after marking, a seat is booked by the new booking exactly when its number was requested; other seats are unchanged |
| SeatMarking.MarkSeatsCount | backend/routes/bookings.js:114-122 | marking distinct free seats of a class raises that class's booked count by the request length and leaves other classes alone |
| SeatMarking.ReleaseSeatsCount | backend/routes/bookings.js:459-472 | freeing distinct held seats lowers that class's booked count by their number |
| SeatMarking.ReleaseUndoesMark | backend/routes/bookings.js:459-472 | freeing the seats a marking booked gives back the original seat list |
| RoomMarking.FindRoom | backend/routes/bookings.js:268-279 | the room lookup answers the first room with that number in scope (one type, or any type) |
| RoomMarking.CheckRooms | backend/routes/bookings.js:203-220 | validation passes exactly when every requested room exists in the type and is not refused; as written a room is refused when it is booked over an inclusively overlapping stay, once revised whenever it is booked; a failure names the first failing room |
| RoomMarking.StrictCheckFindsVacant | backend/routes/bookings.js:211-219 | when the revised check passes and room numbers are unique in the type, every room of the type that a requested number reaches is unbooked |
| RoomMarking.MarkRoomsPointwise | backend/routes/bookings.js:268-279 | after marking, the room the lookup picks for each requested number is held for the stay; every other room is unchanged; the room numbers must be unique within the lookup's scope: within the type once revised, which `Consistent` supplies, but across the whole hotel as written, which no hotel with both standard rooms and suites satisfies (Hotels.RoomNumbersCollide) |
| RoomMarking.MarkRoomsCount | backend/routes/bookings.js:268-279 | marking distinct vacant rooms of a type raises that type's booked count by the request length and leaves the other types' counts alone; the room numbers must be unique within the lookup's scope: within the type once revised, which `Consistent` supplies, but across the whole hotel as written, which no hotel with both standard rooms and suites satisfies (Hotels.RoomNumbersCollide) |
| RoomMarking.ReleaseRoomsCount | backend/routes/bookings.js:473-488 | vacating distinct held rooms lowers that type's booked count by their number and keeps every type's size; the room numbers must be unique within the lookup's scope: within the type once revised, which `Consistent` supplies, but across the whole hotel as written, which no hotel with both standard rooms and suites satisfies (Hotels.RoomNumbersCollide) |
| RoomMarking.ReleaseUndoesMark | backend/routes/bookings.js:473-488 | when every room the requested numbers reach is vacant (unbooked, no holder, no stay), vacating the rooms a marking held gives back the original room list; the room numbers must be unique within the lookup's scope: within the type once revised, which `Consistent` supplies, but across the whole hotel as written, which no hotel with both standard rooms and suites satisfies (Hotels.RoomNumbersCollide) |
| Flights.Units | backend/routes/flights.js:193-209 | a class's generated seats are `<initial>1..<initial>n`, of that class, unbooked |
| Flights.GeneratedSeats | backend/routes/flights.js:193-209 | a generated seat list has the requested size per class, no booked seat, and pairwise distinct seat numbers |
| Flights.Position | backend/routes/flights.js:193-209 | every position of the generated list is the seat of some class with number `<initial><k>`, in class order |
| Flights.Minutes | backend/routes/flights.js:191 | `Math.round(ms / 60000)` is the nearest whole minute, with halves rounded up |
| Flights.NewFlight | backend/routes/flights.js:193-236 | a created flight satisfies the inventory invariant with every counter at available = total, refundable by default, fee 0 by default, active, owned by its creator |
| Flights.CreateFlight | backend/routes/flights.js:148-253 | creation succeeds exactly for a verified agent or an admin with a valid form and an unused flight number; otherwise it gives 403, 400 or the duplicate-number error |
| Flights.CreatePreservesConsistency | backend/routes/flights.js:222-233 | creation keeps every stored flight consistent |
| Flights.FilterPrice | backend/routes/flights.js:54-67 | the compared price is the named class's price, or the least of the three when no class is named |
| Flights.Candidates | backend/routes/flights.js:54-67 | the search keeps exactly the selected flights whose price is within the inclusive optional bounds |
| Flights.Annotate | backend/routes/flights.js:70-83 | the availability map succeeds exactly when every kept flight's counter lookup resolves, and otherwise fails with 500 |
| Flights.SearchByClass | backend/routes/flights.js:54-83 | for economy or business the search returns exactly the kept flights, each available iff its counter covers the passengers, at that class's price |
| Flights.SearchFirstClassFails | backend/routes/flights.js:70-83 | a first-class search fails with 500 as soon as one flight is kept |
| Flights.SearchWithoutClass | backend/routes/flights.js:70-83 | without a class every kept flight is reported available at its economy price |
| Flights.ApplyEdits | backend/routes/flights.js:277-282 | the update loop never changes `createdBy` or `createdAt`, and a body of protected keys changes nothing |
| Flights.ApplyOneEdit | backend/routes/flights.js:277-282 | an unprotected key is copied into the flight |
| Flights.ApplyEditsAppend | backend/routes/flights.js:277-282 | the body's keys are applied in order: a body split in two is its first part applied, then its second |
| Flights.UpdateFlight | backend/routes/flights.js:258-300 | 403 for a non-agent or a foreign agent, 404 for a missing flight; 500 when the edits empty a required text field (number, airline, source, destination); success changes only that flight, keeps its creator and creation time, leaves the required fields present and the prices valid, and recomputes the duration when a time was edited |
| Flights.DeleteFlight | backend/routes/flights.js:305-335 | deletion succeeds exactly for the owner or an admin, and only sets the flight inactive |
| Flights.DeleteDeactivates | backend/routes/flights.js:324-326 | after deletion the flight document is still stored and is inactive |
| Hotels.RoomUnits | backend/routes/hotels.js:199-215 | a type's generated rooms are `<initial>1..<initial>n`, of that type, vacant |
| Hotels.GeneratedRooms | backend/routes/hotels.js:199-215 | a generated room list has the requested size per type, no booked room, and distinct numbers within each type |
| Hotels.Position | backend/routes/hotels.js:199-215 | every position of the generated list is the room of some type with number `<initial><k>`, in type order |
| Hotels.RoomNumbersCollide | backend/routes/hotels.js:199-215 | with a standard room and a suite, both are numbered `S1` |
| Hotels.NewHotel | backend/routes/hotels.js:199-241 | a created hotel is consistent with every counter at available = total, rating 0, refundable and fee 0 by default, active, owned by its creator |
| Hotels.CreateHotel | backend/routes/hotels.js:159-253 | creation succeeds exactly for a verified agent or an admin with a valid form whose hotel passes the schema bounds; the stored hotel is consistent |
| Hotels.NamedType | backend/routes/hotels.js:51-70 | a query names a room type exactly when it is `standard`, `deluxe` or `suite` |
| Hotels.QuotedPrice | backend/routes/hotels.js:51-70 | the quoted price is the named type's price, or the least of the three |
| Hotels.CountedRooms | backend/routes/hotels.js:51-70 | the counted availability is the named type's counter, or the largest of the three counters |
| Hotels.Conflicts | backend/routes/hotels.js:72-84 | no conflict is counted exactly when no booked room's stay overlaps the requested one, inclusively |
| Hotels.ReturnedHotels | backend/routes/hotels.js:86-94 | a hotel is returned exactly when it is selected, its price is within the bounds and its availability covers the rooms asked for |
| Hotels.SearchHotels | backend/routes/hotels.js:11-94 | each result carries the hotel's quoted price and is available, and a hotel is among the results exactly when it is returned |
| Hotels.DatesOnlySubtract | backend/routes/hotels.js:72-84 | dates can only lower the availability; without both dates, or with no booked room, it is the counted figure |
| Hotels.ApplyEdits | backend/routes/hotels.js:277-282 | the update loop never changes `createdBy` or `createdAt`, and a body of protected keys changes nothing |
| Hotels.ApplyOneEdit | backend/routes/hotels.js:277-282 | an unprotected key is copied into the hotel |
| Hotels.ApplyEditsAppend | backend/routes/hotels.js:277-282 | the body's keys are applied in order: a body split in two is its first part applied, then its second |
| Hotels.UpdateHotel | backend/routes/hotels.js:258-293 | 403 for a non-agent or a foreign agent, 404 for a missing hotel; 500 when the edits empty a required text field (name, city, address); success changes only that hotel, keeps its creator and creation time, and leaves the required fields present and the rating and prices within bounds |
| Hotels.DeleteHotel | backend/routes/hotels.js:298-328 | deletion succeeds exactly for the owner or an admin, and only sets the hotel inactive |
| Bookings.AttachAgent | backend/routes/bookings.js:86-94 | an agent is attached exactly when the named agent record exists and is verified, with commission total × rate / 100; otherwise the commission is 0 |
| Bookings.CreditAgent | backend/routes/bookings.js:126-132 | only the first record of the agent's user changes, and its earnings rise by exactly the amount |
| Bookings.DebitAgent | backend/routes/bookings.js:491-498 | only the first record of the agent's user changes, and its earnings fall by the amount, floored at 0 |
| Bookings.PaidBooking | backend/routes/bookings.js:97-110 | the created booking is numbered with its type's prefix, confirmed, paid, unrefunded, and records the user, agent, details, total and commission |
| Bookings.FlightQuote | backend/routes/bookings.js:26-73 | the checks run in the handler's order (400 invalid, 404 missing or inactive, 500 unresolved key, 400 too few seats or a seat missing or booked); passing them means every seat is free and the price is the class price |
| Bookings.CommitFlight | backend/routes/bookings.js:97-132 | the writes of a paid booking: a new confirmed paid booking, the requested seats marked, the class counter lowered by the request length, everything else about the flight unchanged, and the agent credited with the attached commission |
| Bookings.BookFlight | backend/routes/bookings.js:17-150 | a refused check or a declined payment changes nothing; success is exactly the commit at price × seat count, and the total is never negative |
| Bookings.Nights | backend/routes/bookings.js:223 | `Math.ceil(ms / day)` of a positive stay is the whole number of days that covers it, at least 1 |
| Bookings.HotelQuote | backend/routes/bookings.js:153-225 | the checks run in the handler's order (400 invalid, 400 dates, 404, 400 too few rooms or a room missing or refused, an already-held room being refused once revised); passing them gives price per night × nights |
| Bookings.CommitHotel | backend/routes/bookings.js:249-288 | a new confirmed paid booking, the rooms the marking picks held for the stay, the type counter lowered by the request length, and the agent credited |
| Bookings.BookHotel | backend/routes/bookings.js:153-305 | a refused check or a declined payment changes nothing; success is exactly the commit, and the total is never negative |
| Bookings.RefundFor | backend/routes/bookings.js:426-441 | the refund is max(0, total − fee) for a refundable resource, and 0 otherwise or when the resource is gone |
| Bookings.CancelledBooking | backend/routes/bookings.js:444-456 | the saved booking is cancelled now, with the given reason or "User cancelled"; refund fields are set only when the refund is positive and the payment completed |
| Bookings.ReleaseUnits | backend/routes/bookings.js:459-488 | the booked units are freed and their counter raised by their number; nothing else changes; only an unresolved class key fails, with 500 |
| Bookings.Cancel | backend/routes/bookings.js:394-508 | 404 missing, 403 foreign owner, 400 already cancelled; success saves the cancelled booking, releases its units, and debits the agent only when the refund is positive |
| BookingProperties.MarkKeepsFlightConsistency | backend/routes/bookings.js:114-123 | marking distinct free seats and lowering the counter by their number keeps `available == total − booked` in every class |
| BookingProperties.ReleaseKeepsFlightConsistency | backend/routes/bookings.js:459-472 | freeing distinct held seats and raising the counter by their number keeps the invariant |
| BookingProperties.BookFlightKeepsConsistency | backend/routes/bookings.js:55-123 | a flight booking of distinct seats (always, once revised) keeps the flight's inventory invariant |
| BookingProperties.CancelKeepsFlightConsistency | backend/routes/bookings.js:459-472 | cancelling a flight booking whose seats are distinct and held keeps the invariant |
| BookingProperties.FlightRoundTrip | backend/routes/bookings.js:114-123 | releasing what a marking took, and giving back what it took from the counter, restores the flight |
| BookingProperties.CancelFlightBooking | backend/routes/bookings.js:403-472 | the owner's cancellation of a live flight booking whose class key resolves succeeds, with the flights that releasing its seats gives |
| BookingProperties.ReleaseUndoesFlightHold | backend/routes/bookings.js:459-472 | releasing the seats behind a hold gives back the flights as they were before it |
| BookingProperties.CancelUndoesFlightHold | backend/routes/bookings.js:394-508 | cancelling the booking behind a hold gives back the flights as they were |
| BookingProperties.BookThenCancelRestoresFlights | backend/routes/bookings.js:17-150 | cancelling a flight booking right after making it succeeds and restores every flight, counters included |
| BookingProperties.FirstClassUnbookable | backend/routes/bookings.js:46-53 | as written, a valid first-class request to an active flight always ends in 500 |
| BookingProperties.FirstClassBookable | backend/models/Flight.js:67-80 | with the schema's field names a first-class request with free seats and a paid charge succeeds |
| BookingProperties.DeletedFlightUnbookable | backend/routes/bookings.js:37-44 | after deletion the flight takes no new booking (404) |
| BookingProperties.MarkKeepsHotelConsistency | backend/routes/bookings.js:268-279 | holding distinct vacant rooms found by a unique lookup and lowering the counter keeps the hotel consistent |
| BookingProperties.ReleaseKeepsHotelConsistency | backend/routes/bookings.js:473-488 | vacating distinct held rooms and raising the counter keeps the hotel consistent, when room numbers are unique within the lookup's scope; as written, only when room numbers are unique across the whole hotel, which no hotel with both standard rooms and suites satisfies (Hotels.RoomNumbersCollide); once revised, `Consistent` supplies the per-type uniqueness the lookup needs |
| BookingProperties.BookHotelKeepsConsistency | backend/routes/bookings.js:203-279 | once revised, every successful hotel booking keeps the hotel consistent; as written, it does so when room numbers are unique across the hotel, the request is duplicate-free and every requested room is vacant |
| BookingProperties.CancelKeepsHotelConsistency | backend/routes/bookings.js:473-488 | cancelling a hotel booking of distinct held rooms keeps the hotel consistent; as written, only when room numbers are unique across the whole hotel, which no hotel with both standard rooms and suites satisfies (Hotels.RoomNumbersCollide); once revised, `Consistent` supplies the per-type uniqueness the lookup needs |
| BookingProperties.HotelRoundTrip | backend/routes/bookings.js:268-279 | when every room the requested numbers reach is vacant before the marking, vacating what the marking held and giving back the counter restores the hotel, when room numbers are unique within the lookup's scope; as written, only when room numbers are unique across the whole hotel, which no hotel with both standard rooms and suites satisfies (Hotels.RoomNumbersCollide); once revised, `Consistent` supplies the per-type uniqueness the lookup needs |
| BookingProperties.CancelHotelBooking | backend/routes/bookings.js:403-488 | the owner's cancellation of a live hotel booking succeeds, with the hotels that vacating its rooms gives |
| BookingProperties.ReleaseUndoesHotelHold | backend/routes/bookings.js:473-488 | when the held rooms were vacant before the hold, vacating the rooms behind it gives back the hotels as they were; as written, only when room numbers are unique across the whole hotel, which no hotel with both standard rooms and suites satisfies (Hotels.RoomNumbersCollide); once revised, `Consistent` supplies the per-type uniqueness the lookup needs |
| BookingProperties.CancelUndoesHotelHold | backend/routes/bookings.js:394-508 | when the held rooms were vacant before the hold, cancelling the booking behind it gives back the hotels as they were; as written, only when room numbers are unique across the whole hotel, which no hotel with both standard rooms and suites satisfies (Hotels.RoomNumbersCollide); once revised, `Consistent` supplies the per-type uniqueness the lookup needs |
| BookingProperties.BookThenCancelRestoresHotels | backend/routes/bookings.js:153-305 | once revised, cancelling any hotel booking right after making it succeeds and restores every hotel; as written, it does so when room numbers are unique across the hotel and the requested rooms are unbooked |
| BookingProperties.DeletedHotelUnbookable | backend/routes/bookings.js:185-192 | after deletion the hotel takes no new booking (404) |
| BookingProperties.CancelOnce | backend/routes/bookings.js:418-423 | after a successful cancellation the same booking cannot be cancelled again |
| BookingProperties.RefundBounded | backend/routes/bookings.js:426-441 | with a non-negative fee the refund lies between 0 and what was paid |
| BookingProperties.EarningsStayValid | backend/models/Agent.js:43-46 | crediting a non-negative commission or debiting with the floor keeps every agent's earnings non-negative |
| BookingProperties.AttachBounded | backend/routes/bookings.js:86-94 | the attached commission lies between 0 and the total |
| BookingProperties.BookingCreditsAgent | backend/routes/bookings.js:126-132 | a booking credits exactly the verified agent it names, by exactly the commission, and changes no agent when none is attached |
| BookingProperties.CancelDebitsAgent | backend/routes/bookings.js:491-498 | a cancellation with a positive refund lowers the agent's earnings by the commission, floored at 0; without one no agent changes |
| Ledger.Select | backend/routes/agents.js:66 | every document a `find` returns matches the filter |
| Ledger.CountIsSelected | backend/routes/agents.js:66-69 | a count is the length of the matching `find`, and never more than the collection |
| Ledger.StatusesPartition | backend/routes/agents.js:70-71 | the confirmed and the cancelled documents together are at most all matching documents |
| Ledger.TypesPartition | backend/routes/admin.js:35-36 | the flight and the hotel bookings together are exactly all bookings |
| Ledger.CommissionWithinRevenue | backend/routes/agents.js:72-73 | when each booking's commission lies within its amount, the commission total lies within the revenue total |
| Ledger.AmountsNonNegative | backend/models/Booking.js:59-67 | sums of amounts over schema-valid bookings are never negative |
| Agents.ConfirmBooking | backend/routes/agents.js:33-57 | 403 for a refused agent, 404 for a booking not credited to the caller; as written any such booking becomes confirmed; once revised a cancelled one is refused |
| Agents.AgentStats | backend/routes/agents.js:62-84 | the counts and sums are those of the caller's bookings, with confirmed + cancelled ≤ total ≤ collection size; earnings come from the caller's record, and a caller without one gets 500 |
| Admin.AdminGate | backend/routes/admin.js:13-14 | admin routes pass exactly for admins; otherwise 403 |
| Admin.VerifyAgent | backend/routes/admin.js:140-163 | 403 for non-admins and 404 for a missing agent; success marks exactly that record verified now by this admin, and every other record is unchanged |
| Admin.UnverifyAgent | backend/routes/admin.js:168-191 | 403 and 404 as for verify; success clears the record's approval and stamp, and every other record is unchanged |
| Admin.ApprovalKeepsAgentsValid | backend/models/Agent.js:4-46 | approval and withdrawal keep user ids unique and the schema bounds |
| Admin.VerifyIdempotent | backend/routes/admin.js:151-153 | approving twice at the same instant is the same as approving once |
| Admin.UnverifyIdempotent | backend/routes/admin.js:179-181 | withdrawing twice is the same as withdrawing once |
| Admin.UnverifyUndoesVerify | backend/routes/admin.js:151-181 | a withdrawal after an approval leaves what a withdrawal alone leaves |
| Admin.ApprovalGatesAgentRoutes | backend/middleware/auth.js:63-73 | after approval the agent gets past `checkAgent`; after withdrawal it is refused with 403 |
| Admin.DeleteUser | backend/routes/admin.js:196-224 | 403 non-admin, 404 missing, 400 for an admin target; success removes exactly that user and changes nothing else |
| Admin.AdminsSurviveDeletion | backend/routes/admin.js:208-213 | no deletion removes or changes an admin |
| Admin.VerifiedOrPending | backend/routes/admin.js:23-24 | the verified and the pending agent counts add up to all agent records |
| Admin.RolesExclusive | backend/routes/admin.js:21-22 | the user and the agent counts together are at most all users |
| Admin.AllMatchEverything | backend/routes/admin.js:26 | the unfiltered count is the collection size |
| Admin.AdminStats | backend/routes/admin.js:19-98 | 403 exactly for non-admins; the agent counts partition the agents, the type counts partition the bookings, confirmed + cancelled ≤ bookings, revenue sums the completed payments and is non-negative over valid bookings |
| Findings.DuplicateSeatCountedTwice | backend/routes/bookings.js:55-69 | a seat named twice passes validation twice, but marking books it only once |
| Findings.DuplicateSeatsBreakCounter | backend/routes/bookings.js:114-123 | as written, a booking of `[n, n]` that succeeds leaves the class counter off from the booked seats |
| Findings.DuplicateSeatsRefused | backend/routes/bookings.js:26-32 | once revised, a request naming a seat twice is refused with 400 before any lookup |
| Findings.SuiteBookingHoldsStandardRoom | backend/routes/bookings.js:268-279 | as written, booking suite `S1` of a hotel with a standard room and a suite passes validation but holds the standard room |
| Findings.SuiteBookingHoldsSuite | backend/routes/bookings.js:268-279 | once revised, the same booking holds the suite and leaves the standard room alone |
| Findings.RebookingBreaksCounter | backend/routes/bookings.js:211-219 | as written, a held room asked for again over a stay that does not overlap its own is accepted; the booking succeeds and leaves the type's counter off from the booked rooms |
| Findings.RebookingRefused | backend/routes/bookings.js:211-219 | once revised, the same request is refused with 400 naming the room |
| Findings.ConfirmReopensCancelled | backend/routes/agents.js:47 | as written, a cancelled flight booking is re-confirmed and cancelled again, raising the class counter by its seats a second time |
| Findings.CancelledStaysCancelled | backend/routes/agents.js:47 | once revised, confirm refuses a cancelled booking and a second cancellation is refused |

## Left out

- Mongoose validation order. In Mongoose's documented order, built-in validation runs before the user's `pre('save')` hooks. So `Booking.create` without a `bookingNumber` (backend/routes/bookings.js:97-110) fails the schema's `required` check (backend/models/Booking.js:4-8) before the hook at backend/models/Booking.js:99-106 can number it. The route then answers 500 after the payment was charged. The model does not follow that order: it applies the hook's numbering, as the code evidently intends.
- Booking-number collisions: two bookings at the same millisecond with the same random part would clash on the unique index. The random part is an input, and this clash is not modelled.
- Search text and date filters (city regexes, day ranges) are the predicate parameter `matches`. Regular expressions and date parsing are not modelled.
- Sorting and pagination of results are presentation, and are not modelled.
- E-mail and PDF sending are external I/O, and are left out.
- The payment gateway is the input `Env.charge`. A refund always succeeds, as the mock gateway does.
- The popular-routes and popular-hotels aggregations of the admin statistics are not modelled. They are grouping pipelines outside the booking state machine.
- The list, detail and invoice GET routes only read, and are not modelled.
- Concurrent requests: one request at a time is modelled. Races between the handlers' reads and writes are the framework's.
- `populate` and other reference resolution are not modelled, because ids are the map keys.
- `trim()` sanitizers and ISO date parsing are not modelled. Forms arrive already sanitized, and instants are integers.
- The difference between `null` and absent dates is not modelled. A search query with an empty value is treated as absent.
- `jwt.verify` and password hashing are the parameter `verify`.
- A hotel room document records one stay. As written, holding a room again for a later stay overwrites the earlier one (see "## Findings"). Once revised, a held room is refused until its booking is cancelled, because nothing clears a past stay. Stays per room over time are not modelled.
- BookingProperties.BookHotelKeepsConsistency: as written, it is proved only for vacant requested rooms, distinct room numbers and unique room numbers across the hotel. Booking a held room over a non-overlapping stay breaks the counter (Findings.RebookingBreaksCounter).
- BookingProperties.BookThenCancelRestoresHotels: as written, it is proved only when the requested rooms are unbooked and room numbers are unique across the hotel. When a held room is re-held, the earlier stay is lost, and no cancellation restores it.
- BookingProperties.ReleaseUndoesHotelHold: requires that the held rooms were vacant before the hold. Vacating a room that was already held before the hold clears the earlier stay too, so no release restores it. As written, it also requires room numbers unique across the whole hotel, which no hotel with both standard rooms and suites has (see BookingProperties.CancelKeepsHotelConsistency).
- BookingProperties.CancelUndoesHotelHold: requires that the held rooms were vacant before the hold and, as written, room numbers unique across the whole hotel, for the same reasons as ReleaseUndoesHotelHold.
- BookingProperties.HotelRoundTrip: requires that the reached rooms were vacant before the marking and room numbers unique within the lookup's scope (across the whole hotel as written), for the same reasons.
- RoomMarking.ReleaseUndoesMark: requires vacant reached rooms (unbooked, no holder, no stay), because vacating clears whatever holder and stay a room had. It also requires room numbers unique within the lookup's scope, for the reason given under RoomMarking.MarkRoomsPointwise.
- RoomMarking.MarkRoomsPointwise: requires room numbers unique within the lookup's scope. Under the revised, per-type lookup, `Consistent` gives that. Under the as-written, number-only lookup, it means unique across the hotel, which no hotel with both standard rooms and suites has. Without it, a number reaches two rooms, a standard room and a suite both numbered `S1`; the lookup picks the first, and the other room is never marked or freed.
- RoomMarking.MarkRoomsCount: requires room numbers unique within the lookup's scope, for the reason given under RoomMarking.MarkRoomsPointwise.
- RoomMarking.ReleaseRoomsCount: requires room numbers unique within the lookup's scope, for the reason given under RoomMarking.MarkRoomsPointwise.
- BookingProperties.ReleaseKeepsHotelConsistency: requires room numbers unique within the lookup's scope. As written, that is across the whole hotel, so the lemma says nothing about a hotel with both standard rooms and suites. As written, cancelling a suite booking of `S1` in a hotel whose standard `S1` is also held vacates the standard room and raises the suite counter, so both types' counters fall out of step with their rooms.
- BookingProperties.CancelKeepsHotelConsistency: as written, requires room numbers unique across the whole hotel, so it says nothing about a hotel with both standard rooms and suites. As written, cancelling a suite booking of `S1` in a hotel whose standard `S1` is also held vacates the standard room and raises the suite counter, so both types' counters fall out of step with their rooms. Once revised it needs only `Consistent`.
- Admin.VerifyIdempotent: idempotence is stated for the same instant, because a later approval re-stamps `verifiedAt`.
- Admin.AdminStats: the user counts are taken over a given scan of the users collection (`people`), not over the store's user map.
- Admin.DeleteUser: the user's bookings and agent record stay behind. This is modelled as written.
- Agents.AgentStats: `agent.totalEarnings || 0` is modelled as the record's earnings. The schema default keeps earnings defined, so the `|| 0` only matters for a missing record, and there the access throws (500).
- Flights.UpdateFlight and Hotels.UpdateHotel: saving re-runs the schema. The model checks the required text fields (non-empty), the number bounds and, for flights, the unique flight number; any failure answers 500. Trimming before the `required` check is not modelled. Edits arrive typed, so the schema's `enum` and cast failures cannot arise in the model.

## Findings

| source | as written | input that shows it | evidently intended | confidence | as-written member | corrected member |
|---|---|---|---|---|---|---|
| backend/routes/bookings.js:55-123 | validation checks each requested seat against the stored flight, so a seat named twice passes; marking books it once but the counter drops by two | flight with seats E1, E2 free and economy counter 2/2; request `["E1", "E1"]` in economy: E1 booked, E2 free, counter 0/2 | refuse duplicate seat numbers | not executed | Findings.DuplicateSeatsBreakCounter | BookingProperties.BookFlightKeepsConsistency |
| backend/routes/bookings.js:268-279 | marking finds a room by number alone, while room generation (backend/routes/hotels.js:199-215) gives standard and suite rooms the same prefix `S` | hotel created with 1 standard and 1 suite room (both `S1`); suite booking of `S1` holds the standard room | mark the room of the requested type | not executed | Findings.SuiteBookingHoldsStandardRoom | Findings.SuiteBookingHoldsSuite |
| backend/routes/bookings.js:46-73 | the handler reads `${class}Seats`/`${class}Price`, and for `first` these name fields the schema calls `firstClassSeats`/`firstClassPrice` | any valid first-class request to an active flight: the counter read throws, and the answer is 500 | read the first-class fields | not executed | BookingProperties.FirstClassUnbookable | BookingProperties.FirstClassBookable |
| backend/routes/bookings.js:211-219 | a booked room passes validation when its stored stay does not overlap the new one; it is then held again and the counter drops, although no further room is flagged | hotel with standard rooms S1 (held for days 0-1) and S2 (vacant), standard counter 1/2; request S1 for days 100-102, paid: the booking succeeds, with the counter at 0/2 and S2 still vacant | refuse a room that is already held, since a room document records one stay | not executed | Findings.RebookingBreaksCounter | Findings.RebookingRefused |
| backend/routes/agents.js:47 | confirm sets the status to confirmed whatever it was | a cancelled economy booking credited to the agent: confirm, then cancel again; the class counter rises by the seats a second time | refuse to confirm a cancelled booking | not executed | Findings.ConfirmReopensCancelled | Findings.CancelledStaysCancelled |
