# Parking reservations: a verified model of the core logic

This project is a Dafny model of the logic at the centre of a parking
reservation system. The system has three parts: an Express/MySQL backend,
a React Native client and a Python sensor simulator. The model covers
these pieces:

- **The reservation ledger and spot availability** (backend). The
  `reservations`, `parking_spots`, `user_vehicles`, `user_profiles` and
  `users` tables are maps inside the class `Server.ParkingDatabase`. Each
  handler that changes them is a method returning the HTTP status and
  error text the route sends. Those handlers are create, cancel, extend,
  the expiry sweep, add vehicle, set primary vehicle, delete vehicle and
  delete account. The class invariant has three parts:
  - every active booking holds its spot as unavailable;
  - no spot carries two active bookings;
  - every vehicle owner has exactly one primary vehicle.

  Every handler keeps this invariant. Every handler also takes a *ledger
  step*: no row returns to `active`, and no end time or cost decreases.
- **The reservation screen and the API client** (client). These are the
  derived display status, the tab filters, the cancel guard, the
  `isReservationActive`/`isReservationUpcoming` predicates (proved to agree
  with the screen), the cost estimate, the request headers, the token state
  and the way a failed request is classified.
- **The form validators** (client): registration, change password and the
  vehicle form. The email and phone patterns are proved equal to their
  grammar reading.
- **Dashboard statistics and parking search** (client). The sums over the
  lot list, and the search that filters by substring and sorts by free
  spots.
- **The sensor pipeline** (device layer):
  - the per-sensor preprocessor, which suppresses unchanged readings except
    on heartbeats;
  - the parking lot, which clamps its occupancy;
  - the LoRa link's payloads, compression and transmission counters.

Instants are integer milliseconds and money is integer cents. The clock,
random draws, the bcrypt comparison, the outcome of a database transaction
and the size of an encoded payload are all parameters of the operations
that use them. A transaction that fails answers 500 and changes nothing,
as the rollback in the source guarantees. Error texts are constructors of
small datatypes (`Server.ApiError`, `ChangePassword.PasswordError`,
`Register.RegisterError`, `ManageVehicles.VehicleError`), whose `Text()`
gives the exact message the source sends or displays.

Behaviour of the code worth noting:

- The create handler does not check `start < end`. The reservation screen
  lists such a booking as upcoming until its start, even after its end
  (`ReservationsScreen.InvertedWindowStaysUpcoming`).
- Its conflict query is not the half-open overlap test: it misses a booking
  that lies strictly inside the new window (`Server.CreateConflictMissesContained`).
- The extend handler checks the hour range before looking the reservation
  up.
- The extend handler allows an upcoming, not yet started reservation to be
  extended. It checks only `end_time > now`.
- A second booking of an already booked spot fails with "Parking spot is
  not available" rather than with a time conflict. The availability check
  comes first, and while the invariant holds the conflict queries can never
  fire (`Server.CreateConflictUnreachable`, `Server.ExtendConflictUnreachable`).
- A spot is not "unavailable exactly while a live booking holds it". An
  ended booking keeps its spot until the sweep runs. Deleting an account
  whose ended booking was not yet swept strands the spot
  (`Server.DeleteAccountStrandsSpot`).

## Model

| member | source | states |
|---|---|---|
| Server.ParkingDatabase.CreateReservation | parking-backend/server.js:803-862 | An unknown spot gives 404. An unavailable spot gives 400. A conflicting active booking gives 400. A failed transaction gives 500. In all four cases nothing is written. On success exactly one active row for the caller is inserted under a fresh id and that spot alone becomes unavailable. The invariant and the ledger step hold. |
| Server.ParkingDatabase.CancelReservation | parking-backend/server.js:939-970 | The checks come in order: 404 unknown, 403 another user's, 400 not active, 500 failed transaction. On success the row becomes `cancelled`, its spot becomes available, and nothing else changes. |
| Server.ParkingDatabase.ExtendReservation | parking-backend/server.js:1002-1080 | Hours missing or outside [1,6] give 400 before any lookup. Then come 404 (the joined lookup), 403, 400 not active, 400 ended (`end_time <= now`) and 400 conflict. On success end' = end + hours·3600000 ms and cost' = cost + rate·hours, where the added cost is the client's `calculateCost` estimate for those hours. Status and spots do not change. |
| Server.ParkingDatabase.CheckExpired | parking-backend/server.js:889-926 | Every active row with end ≤ now becomes `completed` and its spot becomes available. The reply counts the rows processed. Other rows are untouched. A failed transaction changes nothing. |
| Server.ParkingDatabase.AddVehicle | parking-backend/server.js:404-456 | A duplicate plate of the same user gives 400. Otherwise one vehicle is inserted, and it is primary exactly when it is the user's first. A first vehicle's plate is copied to the profile. One primary per owner is kept. |
| Server.ParkingDatabase.SetPrimaryVehicle | parking-backend/server.js:489-536 | A vehicle that is not the caller's gives 404. Otherwise the chosen vehicle is the user's only primary one and the profile plate follows it. |
| Server.ParkingDatabase.DeleteVehicle | parking-backend/server.js:538-581 | The checks come in order: 404 not the caller's, 400 the only vehicle, 400 the primary vehicle. Otherwise exactly that vehicle is removed. |
| Server.ParkingDatabase.DeleteAccount | parking-backend/server.js:584-660 | The checks come in order: 404 unknown user, 400 wrong password, 400 a live active booking, 500 failed transaction. On success the user's reservations, vehicles, profile and account are removed and nothing else changes. |
| Server.ExpiredIds | parking-backend/server.js:889-892 | The sweep selects exactly the active rows with end ≤ now. |
| Server.SweepKeepsInvariant | parking-backend/server.js:900-911 | Completing the due rows and freeing their spots keeps both reservation invariants, and it is a ledger step. |
| Server.SweepIdempotent | parking-backend/server.js:889-905 | A second sweep at the same instant selects nothing. |
| Server.SweepOnlyTouchesDue | parking-backend/server.js:902-905 | The sweep changes exactly the due rows, and only their status. |
| Server.ExpiredGrowsWithTime | parking-backend/server.js:889-892 | A later sweep selects every row an earlier one would. |
| Server.LedgerStepTransitive | parking-backend/server.js:903 | Ledger steps compose, so over any run of handlers no row returns to `active` and no end time or cost decreases. |
| Server.CreateConflictRow | parking-backend/server.js:818-822 | A row the create query flags is an active row of the requested spot, and for a non-empty window it overlaps that window. |
| Server.ExtendConflictRow | parking-backend/server.js:1059-1063 | A row matches the extend query iff it is another active row of the same spot overlapping the added window `[oldEnd, newEnd)`. |
| Server.HoldsLiveReservation | parking-backend/server.js:605-613 | The account-deletion guard is false iff every active row of the user is one the expiry sweep would complete at that instant. |
| Server.CreateConflictIsOverlap | parking-backend/server.js:818-822 | A row flagged by the create query overlaps a non-empty requested window. |
| Server.CreateConflictMissesContained | parking-backend/server.js:818-822 | An active booking strictly inside the window overlaps it, and the query does not flag it. |
| Server.ExtendConflictIffOverlap | parking-backend/server.js:1059-1068 | The extend query flags exactly the other active bookings of the spot that overlap the added window `[oldEnd, newEnd)`. |
| Server.CreateConflictUnreachable | parking-backend/server.js:813-828 | While every active booking holds its spot, an available spot has no conflicting booking. |
| Server.ExtendConflictUnreachable | parking-backend/server.js:1059-1068 | While no spot has two active bookings, the extend query of an active booking finds nothing. |
| Server.AddKeepsOnePrimary | parking-backend/server.js:417-431 | Inserting a vehicle that is primary exactly when it is its owner's first keeps one primary per owner. |
| Server.MarkPrimarySelectsOne | parking-backend/server.js:504-513 | After the two updates the chosen vehicle is the user's only primary one. Other users' vehicles and every other column are unchanged. |
| Server.MarkPrimaryKeepsOnePrimary | parking-backend/server.js:504-513 | Set-primary keeps one primary per owner. |
| Server.RemoveNonPrimaryKeepsOnePrimary | parking-backend/server.js:564-571 | Removing a non-primary vehicle keeps one primary per owner. |
| Server.RemoveOwnerKeepsOnePrimary | parking-backend/server.js:629-632 | Removing all of one user's vehicles keeps one primary per owner. |
| Server.PrimaryOf | parking-backend/server.js:504-513 | Under the invariant, every vehicle's owner has a primary vehicle. |
| Server.OnlyVehicleIsPrimary | parking-backend/server.js:553-566 | Under the invariant a user's only vehicle is primary, so the only-vehicle refusal is covered by the primary refusal. |
| Server.DeleteAccountStrandsSpot | parking-backend/server.js:606-632 | An ended but unswept booking does not block deletion. Deleting it leaves its spot unavailable with no active booking left to free it. |
| ReservationsScreen.GetReservationStatus | parking-app/screens/Reservations.js:86-124 | `cancelled` and `completed` rows keep their status. An active row is upcoming iff now < start, active iff start ≤ now ≤ end, and expired iff start ≤ now and end < now (the start test comes first, so a row whose end precedes its start is upcoming until its start). |
| ReservationsScreen.StatusMonotoneInTime | parking-app/screens/Reservations.js:113-123 | For a fixed row the derived status only moves forward in time. |
| ReservationsScreen.CanCancel | parking-app/screens/Reservations.js:207 | The cancel button is offered on exactly the rows the Active tab lists. |
| ReservationsScreen.InTab | parking-app/screens/Reservations.js:44-57 | In ledger terms: the Active tab holds active rows with now < start or now ≤ end, the Completed tab completed rows and active rows with start ≤ now and end < now, the Cancelled tab cancelled rows. |
| ReservationsScreen.CanCancelIff | parking-app/screens/Reservations.js:207 | `canCancel` holds iff the ledger row is active and (now < start or now ≤ end). |
| ReservationsScreen.InvertedWindowStaysUpcoming | parking-app/screens/Reservations.js:113-123 | An active row whose end precedes its start (the create handler does not reject one) is upcoming, listed in the Active tab and cancellable at every instant before its start, even after its end. |
| ReservationsScreen.EachRowInExactlyOneTab | parking-app/screens/Reservations.js:44-57 | Every row belongs to exactly one of the three tabs. |
| ReservationsScreen.GetFilteredReservations | parking-app/screens/Reservations.js:44-58 | The filtered list holds exactly the rows of the selected tab. |
| ReservationsScreen.FilterIsSubsequence | parking-app/screens/Reservations.js:45 | Filtering keeps the kept rows in their original order. |
| ReservationsScreen.TabsPartitionRows | parking-app/screens/Reservations.js:44-57 | The three tab lists' lengths add up to the number of rows. |
| ParkingApi.IsReservationActive | parking-app/services/api.js:263-273 | Holds iff the reservation screen derives `active` for the row; such a row has start ≤ end. |
| ParkingApi.IsReservationUpcoming | parking-app/services/api.js:275-284 | Holds iff the screen derives `upcoming` for the row, whatever its end time. |
| ParkingApi.ActiveAndUpcomingExclusive | parking-app/services/api.js:263-284 | No row is both active and upcoming. |
| ParkingApi.AgreesWithScreenStatus | parking-app/services/api.js:263-284 | `isReservationActive` and `isReservationUpcoming` hold exactly when the screen derives `active` and `upcoming`. |
| ParkingApi.CalculateCost | parking-app/services/api.js:218-221 | Zero hours cost nothing and one hour costs the rate. At a non-negative rate the estimate is non-negative and at least one hour's rate once an hour is booked. The extend handler's charge equals it (`Server.ParkingDatabase.ExtendReservation`). |
| ParkingApi.CostAdditive | parking-app/services/api.js:219-221 | The cost of h1 + h2 hours is the cost of h1 plus the cost of h2. |
| ParkingApi.CostMonotone | parking-app/services/api.js:219-221 | At a non-negative rate, more hours never cost less. |
| ParkingApi.ErrorMessage | parking-app/services/api.js:75-77 | A non-empty server error text is the message. A missing or empty one gives "HTTP error! status: …". A failed response never has an empty message. |
| ParkingApi.ClassifyError | parking-app/services/api.js:83-92 | A message containing "401" or "403" is an authentication error. Failing that, one containing "Network request failed" or "fetch" is a network error. |
| ParkingApi.ServerMessageDecidesLogout | parking-app/services/api.js:75-86 | A 401/403 response whose error text has no digit 4 does not log out. |
| ParkingApi.BareUnauthorizedLogsOut | parking-app/services/api.js:75-86 | A 401 response without error text logs out. |
| ParkingApi.ApiClient.constructor | parking-app/services/api.js:5-14 | A new client holds no token. |
| ParkingApi.ApiClient.SetAuthToken | parking-app/services/api.js:27-35 | The token becomes exactly the given value, null included. |
| ParkingApi.ApiClient.Logout | parking-app/services/api.js:125-129 | The token is cleared. |
| ParkingApi.ApiClient.GetAuthHeaders | parking-app/services/api.js:44-54 | The JSON content type is always present. `Authorization: Bearer <token>` is present iff the token is truthy. No other header is present. |
| ParkingApi.ApiClient.HandleRequestFailure | parking-app/services/api.js:80-95 | On an auth error the token is cleared and "Authentication required" is thrown. A network error keeps the token and throws the network error naming the backend URL. Any other error keeps the token and is rethrown unchanged. |
| ChangePassword.ValidateForm | parking-app/screens/profile/ChangePassword.js:23-48 | Each field's error is present iff its rule fails, with the source's message. "Must be different" overwrites the new-password error. The form is valid iff no error, iff every rule holds. |
| JsString.TrimEmptyIffBlank | parking-app/screens/profile/ChangePassword.js:26 | `!s.trim()` holds iff every character of `s` is whitespace. |
| JsString.IncludesIffOccurs | parking-app/hooks/useRealTimeData.js:148-151 | `includes` holds iff the substring occurs at some index. |
| JsString.ToUpperIdempotent | parking-app/screens/profile/ManageVehicles.js:169 | Upper-casing twice is upper-casing once. |
| Register.ValidateEmail | parking-app/screens/auth/Register.js:27-30 | An accepted address has at least five characters and neither starts nor ends with '@'. |
| Register.ValidatePhone | parking-app/screens/auth/Register.js:32-35 | An accepted number has at least ten characters and no '+' after the first position. |
| Register.ValidateEmailIffShape | parking-app/screens/auth/Register.js:27-30 | `validateEmail` accepts exactly the strings X@Y.Z with X, Y, Z non-empty and free of whitespace and '@'. |
| Register.AcceptedEmailSplits | parking-app/screens/auth/Register.js:27-30 | An accepted email splits as X@Y.Z. |
| Register.ShapedEmailAccepted | parking-app/screens/auth/Register.js:27-30 | Every X@Y.Z is accepted. |
| Register.ValidEmailHasOneAt | parking-app/screens/auth/Register.js:27-30 | An accepted email has exactly one '@'. |
| Register.ValidatePhoneIffShape | parking-app/screens/auth/Register.js:32-35 | `validatePhone` accepts exactly an optional '+' followed by ten or more digits, '-', '(', ')' or whitespace. |
| Register.ValidPhoneIsLong | parking-app/screens/auth/Register.js:32-35 | An accepted phone number has at least ten characters. |
| Register.BlankPhoneMatchesPattern | parking-app/screens/auth/Register.js:54-58 | Ten spaces match the phone pattern, so the blank check is not redundant. |
| Register.AcceptedEmailNotBlank | parking-app/screens/auth/Register.js:48-52 | An accepted email is never blank. |
| Register.ValidateForm | parking-app/screens/auth/Register.js:37-86 | The five name fields carry their error iff blank. Email, phone, password and confirmation carry an error iff blank or failing their rule, and the error says which. The form is valid iff no error, iff every rule holds. |
| Register.CheckNames | parking-app/screens/auth/Register.js:39-45 | The two name rules set exactly the name fields' errors and leave every other entry unchanged. |
| Register.CheckContact | parking-app/screens/auth/Register.js:47-57 | The email and phone rules set exactly their fields' errors and leave every other entry unchanged. |
| Register.CheckVehicle | parking-app/screens/auth/Register.js:60-70 | The plate, make and model rules set exactly their fields' errors and leave every other entry unchanged. |
| Register.CheckPasswords | parking-app/screens/auth/Register.js:72-82 | The password and confirmation rules set exactly their fields' errors and leave every other entry unchanged. |
| Register.UpdateFormData | parking-app/screens/auth/Register.js:155-160 | Only the edited field changes, and only that field's error is cleared. |
| ManageVehicles.ValidateForm | parking-app/screens/profile/ManageVehicles.js:40-61 | Plate, make and model carry an error iff blank. The year carries one iff it is non-empty and not a number in [1900, currentYear+1]. Colour never carries one. The form is valid iff no error, iff every rule holds. |
| ManageVehicles.AcceptedYearInRange | parking-app/screens/profile/ManageVehicles.js:55-57 | An accepted non-empty year is a number within the range. |
| ManageVehicles.UpdateFormData | parking-app/screens/profile/ManageVehicles.js:167-175 | The plate is stored upper-cased and every other field as typed. No other field changes, and only the edited field's error is cleared. |
| ManageVehicles.EditedPlateIsUpperCase | parking-app/screens/profile/ManageVehicles.js:167-171 | An edited plate is already upper-case. |
| ManageVehicles.PlateEditIdempotent | parking-app/screens/profile/ManageVehicles.js:167-175 | Typing the same plate twice leaves the state as typing it once. |
| ManageVehicles.IsPrimary | parking-app/screens/profile/ManageVehicles.js:100 | The guard fails only for `false` and `0`. |
| ManageVehicles.GuardIsTruthiness | parking-app/screens/profile/ManageVehicles.js:100 | The guard `is_primary \|\| is_primary === 1` is plain truthiness. |
| ManageVehicles.TinyIntRoundTrip | parking-app/screens/profile/ManageVehicles.js:100 | A flag sent as boolean or as 0/1 is read back as the same truth value. |
| ManageVehicles.HandleDeleteVehicle | parking-app/screens/profile/ManageVehicles.js:99-124 | A primary vehicle is refused. Any other vehicle goes to a delete confirmation for its own id. |
| ManageVehicles.HandleSetPrimary | parking-app/screens/profile/ManageVehicles.js:128-135 | Nothing happens for the primary vehicle. Any other vehicle is requested as primary by its id. |
| ManageVehicles.PrimaryNeverDeleted | parking-app/screens/profile/ManageVehicles.js:99-131 | A vehicle stored as primary never reaches the delete request, and a set-primary request is sent iff the vehicle is not primary. |
| RealTimeData.OccupiedIsDifference | parking-app/hooks/useRealTimeData.js:33-35 | The sum of per-lot occupied counts equals total minus available. |
| RealTimeData.OccupiedWithinTotal | parking-app/hooks/useRealTimeData.js:33-35 | Over consistent lots the occupied sum lies in [0, total]. |
| RealTimeData.ComputeStats | parking-app/hooks/useRealTimeData.js:31-40 | The stats hold the lot count, the sums with missing counts as 0, occupied = total − available and nothing reserved. The rate is 0 when total ≤ 0 and occupied·100/total otherwise. |
| RealTimeData.RateIsPercentage | parking-app/hooks/useRealTimeData.js:40 | Over consistent lots the rate lies in [0, 100]. |
| RealTimeData.FilterMatches | parking-app/hooks/useRealTimeData.js:148-151 | Every kept lot matches the query, and each matching lot is kept as often as it is listed. |
| RealTimeData.InsertKeepsSorted | parking-app/hooks/useRealTimeData.js:154-156 | Inserting into a list sorted by free spots keeps it sorted. |
| RealTimeData.SortByAvailable | parking-app/hooks/useRealTimeData.js:154-156 | The result is a permutation of the input in non-increasing order of free spots. |
| RealTimeData.SearchParking | parking-app/hooks/useRealTimeData.js:129-163 | A missing query or one shorter than 2 gives no results, `totalFound` 0 and no fetch. Otherwise the results are sorted and `totalFound` is their number. |
| RealTimeData.SearchFindsExactlyMatches | parking-app/hooks/useRealTimeData.js:148-163 | Every result matches and no matching lot is dropped. |
| DataPreprocessor.OnHeartbeat | device_layer/utils/data_preprocessor.py:30-32 | Count 0 is a heartbeat, and no count strictly between 0 and the interval is one. |
| DataPreprocessor.Preprocessor.constructor | device_layer/utils/data_preprocessor.py:4-7 | The settings are stored and no sensor has been seen. |
| DataPreprocessor.Preprocessor.PreprocessSensorData | device_layer/utils/data_preprocessor.py:9-47 | Low confidence blanks the occupancy and withholds transmission. A first reading has no `state_changed` and its decision depends on confidence alone. A later one sets `state_changed` to previous ≠ current. An unchanged state transmits iff the count falls on a heartbeat. The sensor's entry is updated and the others are kept. |
| DataPreprocessor.ShouldTransmit | device_layer/utils/data_preprocessor.py:49-51 | `transmission_required` decides, and it defaults to true. |
| DataPreprocessor.ShouldTransmitUnlessFalse | device_layer/utils/data_preprocessor.py:49-51 | Only an explicit false stops a transmission. |
| ParkingLot.Clamp | device_layer/models/parking_lot.py:15 | With a non-negative capacity the result is the count, brought into [0, capacity]. |
| ParkingLot.ClampIdempotent | device_layer/models/parking_lot.py:15 | Clamping twice is clamping once. |
| ParkingLot.Lot.constructor | device_layer/models/parking_lot.py:4-11 | A new lot is empty and never updated. |
| ParkingLot.Lot.UpdateOccupancy | device_layer/models/parking_lot.py:13-16 | The occupancy becomes the clamped count, and 0 ≤ occupied ≤ total is kept. |
| ParkingLot.Lot.GetAvailability | device_layer/models/parking_lot.py:18-20 | available + occupied = total, within [0, total] for a valid lot. |
| ParkingLot.Lot.GetOccupancyRate | device_layer/models/parking_lot.py:22-26 | The rate is 0 without spots and otherwise occupied·100/total, within [0, 100]. |
| ParkingLot.Lot.ToDict | device_layer/models/parking_lot.py:28-39 | The record reports the lot's fields and its own availability and rate. |
| LoRaSimulator.PySlice | device_layer/utils/lora_simulator.py:37 | Python slicing cuts out-of-range bounds down to the length. |
| LoRaSimulator.Trunc | device_layer/utils/lora_simulator.py:39-40 | `int()` truncates toward zero. |
| LoRaSimulator.MakePayload | device_layer/utils/lora_simulator.py:13-19 | The reading's fields go under keys id, t, o, b, c. |
| LoRaSimulator.CompressPayload | device_layer/utils/lora_simulator.py:32-42 | The id moves to key i. The time becomes characters 11–18. Occupancy becomes 1 iff true. The battery and confidence·100 are truncated. |
| LoRaSimulator.CompressedTimeIsTimeOfDay | device_layer/utils/lora_simulator.py:37 | On an ISO timestamp the compressed time is the 8-character `HH:MM:SS`. |
| LoRaSimulator.BlankedReadingLooksFree | device_layer/utils/lora_simulator.py:38 | A blanked (None) occupancy is sent compressed exactly like a free spot. |
| LoRaSimulator.Simulator.constructor | device_layer/utils/lora_simulator.py:5-9 | The settings are stored and the counters are zero. |
| LoRaSimulator.Simulator.PreparePayload | device_layer/utils/lora_simulator.py:11-30 | The payload is compressed iff its encoded size exceeds the limit. The size returned is always the size before compression. |
| LoRaSimulator.Simulator.SimulateTransmission | device_layer/utils/lora_simulator.py:44-52 | Success iff the draw is below the probability. The count grows by one, and the failures grow by one iff the attempt failed. failed ≤ total is kept. |
| LoRaSimulator.Simulator.GetStats | device_layer/utils/lora_simulator.py:54-63 | The counters are reported. The rate is 0 with no transmissions and otherwise successes·100/total, within [0, 100]. |

## Left out

- Concurrency: each handler is one atomic step. The race in which the availability and conflict checks of the create handler (parking-backend/server.js:803-832) run outside the transaction is not modelled, and nothing is claimed about double booking under concurrent requests.
- Handlers that use no transaction (extend, set primary, delete vehicle) can also fail with 500 on a database error. That path is not modelled.
- Server.ParkingDatabase.CreateReservation: the 400 "Invalid date/time format" answer for `ER_TRUNCATED_WRONG_VALUE` is not modelled, because instants are integers and cannot be malformed.
- Date handling: `formatDateForMySQL`, the Europe/Bucharest conversion, `toLocaleString`, `new Date` parsing and the display formatting are not modelled. Every time is an integer instant.
- Authentication: bcrypt, JWT, the `authenticateToken` middleware and the photo uploads are not modelled. The user id is trusted and the password comparison is the `passwordMatches` parameter.
- The vehicle update route (parking-backend/server.js:458-487) and registration and login (parking-backend/server.js:98-160) are not part of this model. They are not among the handlers that keep the ledger and vehicle rules.
- Server.ParkingDatabase.AddVehicle: the duplicate-plate test is an exact string comparison. MySQL's default case-insensitive collation would also match plates that differ only in letter case.
- Server.ParkingDatabase.ExtendReservation: the additional hours are whole numbers. The handler accepts any JSON number in [1, 6], such as 1.5, and then extends by the fractional number of hours and charges `hourly_rate * 1.5`. That case is not modelled.
- ParkingApi.CalculateCost: hours are whole numbers, as in the extension above.
- ChangePassword.ValidateForm: string lengths count characters (code points). JavaScript's `.length` counts UTF-16 units, so a password of three characters outside the Basic Multilingual Plane (such as emoji) has length 6 there and passes the six-character rule, while the model reports it as too short.
- Register.ValidateForm: the same difference applies to the six-character password rule.
- Register.CheckPasswords: the same difference applies; it is the step of `Register.ValidateForm` that applies that rule.
- RealTimeData.SearchParking: the same difference applies to the two-character query rule. A single emoji passes `query.length < 2` in JavaScript and is searched, while the model returns no results.
- Floating point: money is exact integer cents (`toFixed`/`parseFloat` are not modelled), and rates are exact rationals.
- LoRaSimulator.Simulator.GetStats: does not model `round(..., 1)`.
- LoRaSimulator.CompressPayload: the battery and the confidence percentage `int(confidence * 100)` are truncated from exact reals. Python multiplies floats first, so for example a confidence of 0.29 gives 28 there (0.29 * 100 is 28.999999999999996), where the model gives 29.
- RealTimeData.ComputeStats and ParkingLot.Lot.GetOccupancyRate: the rate is the exact quotient. Floating-point rounding is not modelled.
- JsString: case mapping (`toLowerCase`/`toUpperCase`) covers ASCII letters only.
- Register.UpdateFormData and ManageVehicles.UpdateFormData: setting an error to `null` is modelled by removing the key.
- RealTimeData.SortByAvailable: proved sorted and a permutation. That the JavaScript sort keeps equal lots in input order is not proved.
- ManageVehicles.ValidateForm: JavaScript's numeric reading of the year text is the `yearNumber` parameter (`None` for NaN), and the current year is the `currentYear` parameter.
- DataPreprocessor.Preprocessor.PreprocessSensorData: `datetime.now()` is the `processedAt` parameter. The `ZeroDivisionError` Python raises for a heartbeat interval of 0 is the `None` result. Copying the input dictionary is implicit, since readings are values.
- LoRaSimulator.Simulator.PreparePayload: JSON encoding is the `jsonSize` parameter. `random.random()` is the `draw` parameter of `SimulateTransmission`.
- ParkingApi.ApiClient.SetAuthToken: persisting the token in AsyncStorage and the delayed auth refresh are not modelled. `init` and the HTTP transport (`fetch`, `response.json()`) are left out as I/O.
- UI, navigation, polling timers, the payment service, device location, the random sensor simulation, the edge gateway and the constants file are outside the modelled core.
