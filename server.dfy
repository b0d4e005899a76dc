/**
 * The backend's tables and the handlers of `server.js` that change them:
 * creating, cancelling and extending a reservation, the expiry sweep
 * (`/check-expired`), the vehicle rules (add, set primary, delete) and the
 * account-deletion guard.
 *
 * Each handler is one atomic, sequential step over the tables. A transaction
 * that fails (`commitOk == false`) answers 500 and leaves every table as it
 * was. A reply carries the HTTP status and the `error` text of the source.
 */
module Server {
  import opened Wrappers
  import L = Ledger
  import PA = ParkingApi

  /** A row of `parking_lots`: only the hourly rate (cents) matters here. */
  datatype Lot = Lot(hourlyRate: nat)

  /** A row of `parking_spots`. */
  datatype Spot = Spot(lotId: nat, isAvailable: bool)

  /** A row of `reservations`. */
  datatype Reservation = Reservation(
    userId: nat, spotId: nat, startTime: L.Instant, endTime: L.Instant, totalCost: L.Cents, status: L.LedgerStatus)

  /** A row of `user_vehicles`. */
  datatype Vehicle = Vehicle(
    userId: nat, licensePlate: string, make: string, model: string,
    color: Option<string>, year: Option<int>, isPrimary: bool)

  /** What a handler answers. */
  datatype Reply =
    | Created(reservationId: nat)
    | Success
    | ExpiredProcessed(expiredCount: nat)
    | Extended(additionalHours: int, additionalCost: L.Cents, newEndTime: L.Instant, newTotalCost: L.Cents)
    | Failure(httpStatus: nat, error: ApiError)

  /** The `error` texts the handlers answer with, each standing for its message. */
  datatype ApiError =
    | InternalServerError
    | SpotNotFound | SpotNotAvailable | TimeSlotConflict
    | ReservationNotFound | NotOwner | NotCancellable
    | HoursOutOfRange | NotActive | AlreadyEnded | ExtensionConflict
    | DuplicatePlate | VehicleNotFound | OnlyVehicle | PrimaryVehicle
    | UserNotFound | IncorrectPassword | HasActiveReservations
  {
    function Text(): string {
      match this
      case InternalServerError => "Internal server error"
      case SpotNotFound => "Parking spot not found"
      case SpotNotAvailable => "Parking spot is not available"
      case TimeSlotConflict => "Time slot conflicts with existing reservation"
      case ReservationNotFound => "Reservation not found"
      case NotOwner => "Unauthorized"
      case NotCancellable => "Reservation cannot be cancelled"
      case HoursOutOfRange => "Additional hours must be between 1 and 6"
      case NotActive => "Only active reservations can be extended"
      case AlreadyEnded => "Cannot extend expired reservation"
      case ExtensionConflict => "Extension conflicts with another reservation"
      case DuplicatePlate => "Vehicle with this license plate already exists"
      case VehicleNotFound => "Vehicle not found"
      case OnlyVehicle => "Cannot delete your only vehicle. Add another vehicle first."
      case PrimaryVehicle => "Cannot delete primary vehicle. Set another vehicle as primary first."
      case UserNotFound => "User not found"
      case IncorrectPassword => "Incorrect password"
      case HasActiveReservations => "Cannot delete account with active reservations"
    }
  }

  const InternalError := Failure(500, InternalServerError)

  // ---------------------------------------------------------------------------
  // The SQL conditions of the handlers, as predicates over the tables

  /**
   * One row matching the conflict query of the create handler: an active row
   * of the spot that, for a proper window, overlaps it.
   */
  function CreateConflictRow(r: Reservation, spotId: nat, start: L.Instant, end: L.Instant): (b: bool)
    ensures b ==> r.spotId == spotId && r.status.Active?
    ensures b && start < end ==> Overlaps(r.startTime, r.endTime, start, end)
  {
    r.spotId == spotId && r.status.Active? &&
    ((r.startTime <= start && r.endTime > start) || (r.startTime < end && r.endTime >= end))
  }

  predicate HasCreateConflict(rs: map<nat, Reservation>, spotId: nat, start: L.Instant, end: L.Instant) {
    exists id | id in rs :: CreateConflictRow(rs[id], spotId, start, end)
  }

  /**
   * One row matching the conflict query of the extend handler: another active
   * row of the spot overlapping the added window `[oldEnd, newEnd)`.
   */
  function ExtendConflictRow(id: nat, r: Reservation, selfId: nat, spotId: nat, newEnd: L.Instant, oldEnd: L.Instant): (b: bool)
    ensures b <==> id != selfId && r.spotId == spotId && r.status.Active? && Overlaps(r.startTime, r.endTime, oldEnd, newEnd)
  {
    id != selfId && r.spotId == spotId && r.status.Active? && r.startTime < newEnd && r.endTime > oldEnd
  }

  predicate HasExtendConflict(rs: map<nat, Reservation>, selfId: nat, spotId: nat, newEnd: L.Instant, oldEnd: L.Instant) {
    exists id | id in rs :: ExtendConflictRow(id, rs[id], selfId, spotId, newEnd, oldEnd)
  }

  /** The rows the sweep selects: active with `end_time <= now`. */
  function ExpiredIds(rs: map<nat, Reservation>, now: L.Instant): (ids: set<nat>)
    ensures forall id :: id in ids <==> id in rs && rs[id].status.Active? && rs[id].endTime <= now
  {
    set id | id in rs && rs[id].status.Active? && rs[id].endTime <= now
  }

  /** `UPDATE reservations SET status = 'completed' WHERE id IN (...)` */
  function CompleteRows(rs: map<nat, Reservation>, ids: set<nat>): map<nat, Reservation> {
    map id | id in rs :: if id in ids then rs[id].(status := L.Completed) else rs[id]
  }

  /** `UPDATE parking_spots SET is_available = TRUE WHERE id IN (...)` */
  function FreeSpots(spots: map<nat, Spot>, ids: set<nat>): map<nat, Spot> {
    map s | s in spots :: if s in ids then spots[s].(isAvailable := true) else spots[s]
  }

  /** The vehicles of one user. */
  function OwnedBy(vs: map<nat, Vehicle>, userId: nat): set<nat> {
    set v | v in vs && vs[v].userId == userId
  }

  /** Intervals overlapping in the half-open sense `[s1, e1)` and `[s2, e2)`. */
  predicate Overlaps(s1: L.Instant, e1: L.Instant, s2: L.Instant, e2: L.Instant) {
    s1 < e2 && s2 < e1
  }

  // ---------------------------------------------------------------------------
  // Invariants of the tables and of every step

  /** Every active reservation's spot exists and is marked unavailable. */
  ghost predicate ActiveHoldsSpot(rs: map<nat, Reservation>, spots: map<nat, Spot>) {
    forall id :: id in rs && rs[id].status.Active? ==> rs[id].spotId in spots && !spots[rs[id].spotId].isAvailable
  }

  /** No spot carries two active reservations. */
  ghost predicate OneActivePerSpot(rs: map<nat, Reservation>) {
    forall a, b :: a in rs && b in rs && rs[a].status.Active? && rs[b].status.Active? && rs[a].spotId == rs[b].spotId ==> a == b
  }

  /** Every user who has vehicles has exactly one primary vehicle. */
  ghost predicate OnePrimaryPerOwner(vs: map<nat, Vehicle>) {
    (forall a, b :: a in vs && b in vs && vs[a].isPrimary && vs[b].isPrimary && vs[a].userId == vs[b].userId ==> a == b) &&
    (forall u :: u in Owners(vs) ==> HasPrimary(vs, u))
  }

  /** The users that have at least one vehicle. */
  function Owners(vs: map<nat, Vehicle>): set<nat> {
    set a | a in vs :: vs[a].userId
  }

  ghost predicate HasPrimary(vs: map<nat, Vehicle>, userId: nat) {
    exists p :: p in vs && vs[p].userId == userId && vs[p].isPrimary
  }

  /**
   * What any handler may do to a reservation row that survives it: a row that
   * is no longer active keeps its status (nothing returns to `active`); owner,
   * spot and start never change; end time and total cost never decrease.
   */
  ghost predicate LedgerStep(before: map<nat, Reservation>, after: map<nat, Reservation>) {
    forall id :: id in before && id in after ==>
      && (!before[id].status.Active? ==> after[id].status == before[id].status)
      && after[id].userId == before[id].userId
      && after[id].spotId == before[id].spotId
      && after[id].startTime == before[id].startTime
      && after[id].endTime >= before[id].endTime
      && after[id].totalCost >= before[id].totalCost
  }

  // ---------------------------------------------------------------------------
  // The database

  class ParkingDatabase {
    const lots: map<nat, Lot>
    var spots: map<nat, Spot>
    var reservations: map<nat, Reservation>
    var nextReservationId: nat
    var users: set<nat>
    var profilePlates: map<nat, string>
    var vehicles: map<nat, Vehicle>
    var nextVehicleId: nat

    ghost predicate Valid()
      reads this
    {
      && (forall id :: id in reservations ==> id < nextReservationId)
      && (forall id :: id in vehicles ==> id < nextVehicleId)
      && ActiveHoldsSpot(reservations, spots)
      && OneActivePerSpot(reservations)
      && OnePrimaryPerOwner(vehicles)
    }

    /** The seeded lots, spots and users, before any reservation or vehicle. */
    constructor (lots: map<nat, Lot>, spots: map<nat, Spot>, users: set<nat>, profilePlates: map<nat, string>)
      ensures Valid()
      ensures this.lots == lots && this.spots == spots && this.users == users && this.profilePlates == profilePlates
      ensures reservations == map[] && vehicles == map[]
    {
      this.lots := lots;
      this.spots := spots;
      this.users := users;
      this.profilePlates := profilePlates;
      reservations := map[];
      vehicles := map[];
      nextReservationId := 0;
      nextVehicleId := 0;
    }

    /** `POST /api/reservations` */
    method CreateReservation(userId: nat, spotId: nat, startTime: L.Instant, endTime: L.Instant, totalCost: L.Cents, commitOk: bool)
      returns (reply: Reply)
      requires Valid()
      modifies this
      ensures Valid() && LedgerStep(old(reservations), reservations)
      ensures users == old(users) && profilePlates == old(profilePlates) && vehicles == old(vehicles) && nextVehicleId == old(nextVehicleId)
      ensures spotId !in old(spots) ==> reply == Failure(404, SpotNotFound)
      ensures spotId in old(spots) && !old(spots)[spotId].isAvailable ==>
        reply == Failure(400, SpotNotAvailable)
      ensures spotId in old(spots) && old(spots)[spotId].isAvailable && HasCreateConflict(old(reservations), spotId, startTime, endTime) ==>
        reply == Failure(400, TimeSlotConflict)
      ensures spotId in old(spots) && old(spots)[spotId].isAvailable && !HasCreateConflict(old(reservations), spotId, startTime, endTime) ==>
        reply == (if commitOk then Created(old(nextReservationId)) else InternalError)
      ensures reply.Created? ==>
        && reservations == old(reservations)[reply.reservationId := Reservation(userId, spotId, startTime, endTime, totalCost, L.Active)]
        && reply.reservationId !in old(reservations)
        && spots == old(spots)[spotId := old(spots)[spotId].(isAvailable := false)]
      ensures !reply.Created? ==> reservations == old(reservations) && spots == old(spots)
    {
      if spotId !in spots {
        return Failure(404, SpotNotFound);
      }
      if !spots[spotId].isAvailable {
        return Failure(400, SpotNotAvailable);
      }
      if HasCreateConflict(reservations, spotId, startTime, endTime) {
        return Failure(400, TimeSlotConflict);
      }
      // The transaction: insert the row, then take the spot.
      var savedReservations, savedSpots := reservations, spots;
      var id := nextReservationId;
      BookKeepsInvariant(reservations, spots, id, Reservation(userId, spotId, startTime, endTime, totalCost, L.Active));
      reservations := reservations[id := Reservation(userId, spotId, startTime, endTime, totalCost, L.Active)];
      nextReservationId := nextReservationId + 1;
      spots := spots[spotId := spots[spotId].(isAvailable := false)];
      if !commitOk {
        reservations, spots := savedReservations, savedSpots;
        return InternalError;
      }
      reply := Created(id);
    }

    /** `PUT /api/reservations/:reservationId/cancel` */
    method CancelReservation(userId: nat, reservationId: nat, commitOk: bool) returns (reply: Reply)
      requires Valid()
      modifies this
      ensures Valid() && LedgerStep(old(reservations), reservations)
      ensures users == old(users) && profilePlates == old(profilePlates) && vehicles == old(vehicles)
      ensures nextReservationId == old(nextReservationId) && nextVehicleId == old(nextVehicleId)
      ensures reservationId !in old(reservations) ==> reply == Failure(404, ReservationNotFound)
      ensures reservationId in old(reservations) ==>
        var r := old(reservations)[reservationId];
        && (r.userId != userId ==> reply == Failure(403, NotOwner))
        && (r.userId == userId && !r.status.Active? ==> reply == Failure(400, NotCancellable))
        && (r.userId == userId && r.status.Active? ==> reply == if commitOk then Success else InternalError)
        && (reply == Success ==>
              && reservations == old(reservations)[reservationId := r.(status := L.Cancelled)]
              && spots == FreeSpots(old(spots), {r.spotId}))
      ensures reply != Success ==> reservations == old(reservations) && spots == old(spots)
    {
      if reservationId !in reservations {
        return Failure(404, ReservationNotFound);
      }
      var r := reservations[reservationId];
      if r.userId != userId {
        return Failure(403, NotOwner);
      }
      if !r.status.Active? {
        return Failure(400, NotCancellable);
      }
      if !commitOk {
        return InternalError;
      }
      reservations := reservations[reservationId := r.(status := L.Cancelled)];
      spots := FreeSpots(spots, {r.spotId});
      reply := Success;
    }

    /** `PUT /api/reservations/:reservationId/extend`; `additionalHours` is `None` when the body lacks it. */
    method ExtendReservation(userId: nat, reservationId: nat, additionalHours: Option<int>, now: L.Instant) returns (reply: Reply)
      requires Valid()
      modifies this
      ensures Valid() && LedgerStep(old(reservations), reservations)
      ensures spots == old(spots) && users == old(users) && profilePlates == old(profilePlates) && vehicles == old(vehicles)
      ensures nextReservationId == old(nextReservationId) && nextVehicleId == old(nextVehicleId)
      ensures additionalHours.None? || additionalHours.value < 1 || additionalHours.value > 6 ==>
        reply == Failure(400, HoursOutOfRange)
      ensures additionalHours.Some? && 1 <= additionalHours.value <= 6 && !old(Joined(reservationId)) ==>
        reply == Failure(404, ReservationNotFound)
      ensures additionalHours.Some? && 1 <= additionalHours.value <= 6 && old(Joined(reservationId)) ==>
        var hours := additionalHours.value;
        var r := old(reservations)[reservationId];
        var rate := lots[old(spots)[r.spotId].lotId].hourlyRate;
        var newEnd := r.endTime + hours * L.HourMs;
        && (r.userId != userId ==> reply == Failure(403, NotOwner))
        && (r.userId == userId && !r.status.Active? ==> reply == Failure(400, NotActive))
        && (r.userId == userId && r.status.Active? && r.endTime <= now ==>
              reply == Failure(400, AlreadyEnded))
        && (r.userId == userId && r.status.Active? && r.endTime > now ==>
              reply == if HasExtendConflict(old(reservations), reservationId, r.spotId, newEnd, r.endTime)
                       then Failure(400, ExtensionConflict)
                       else Extended(hours, rate * hours, newEnd, r.totalCost + rate * hours))
        && (reply.Extended? ==>
              reservations == old(reservations)[reservationId := r.(endTime := newEnd, totalCost := r.totalCost + rate * hours)])
        && (reply.Extended? ==> reply.additionalCost == PA.CalculateCost(rate, hours))
      ensures !reply.Extended? ==> reservations == old(reservations)
    {
      if additionalHours.None? || additionalHours.value < 1 || additionalHours.value > 6 {
        return Failure(400, HoursOutOfRange);
      }
      var hours := additionalHours.value;
      if !Joined(reservationId) {
        return Failure(404, ReservationNotFound);
      }
      var r := reservations[reservationId];
      var rate := lots[spots[r.spotId].lotId].hourlyRate;
      if r.userId != userId {
        return Failure(403, NotOwner);
      }
      if !r.status.Active? {
        return Failure(400, NotActive);
      }
      if r.endTime <= now {
        return Failure(400, AlreadyEnded);
      }
      var newEndTime := r.endTime + hours * L.HourMs;
      var additionalCost := rate * hours;
      var newTotalCost := r.totalCost + additionalCost;
      if HasExtendConflict(reservations, reservationId, r.spotId, newEndTime, r.endTime) {
        return Failure(400, ExtensionConflict);
      }
      RetimeKeepsInvariant(reservations, spots, reservationId, newEndTime, newTotalCost);
      reservations := reservations[reservationId := r.(endTime := newEndTime, totalCost := newTotalCost)];
      reply := Extended(hours, additionalCost, newEndTime, newTotalCost);
    }

    /** The extend handler's lookup joins the reservation with its spot and the spot's lot: all three must exist. */
    predicate Joined(reservationId: nat)
      reads this
    {
      reservationId in reservations && reservations[reservationId].spotId in spots &&
      spots[reservations[reservationId].spotId].lotId in lots
    }

    /** `POST /api/reservations/check-expired` at instant `now`. */
    method CheckExpired(now: L.Instant, commitOk: bool) returns (reply: Reply)
      requires Valid()
      modifies this
      ensures Valid() && LedgerStep(old(reservations), reservations)
      ensures users == old(users) && profilePlates == old(profilePlates) && vehicles == old(vehicles)
      ensures nextReservationId == old(nextReservationId) && nextVehicleId == old(nextVehicleId)
      ensures var due := ExpiredIds(old(reservations), now);
        && (due == {} || commitOk ==> reply == ExpiredProcessed(|due|))
        && (due != {} && !commitOk ==> reply == InternalError)
        && (reply.ExpiredProcessed? ==>
              && reservations == CompleteRows(old(reservations), due)
              && spots == FreeSpots(old(spots), set id | id in due :: old(reservations)[id].spotId))
      ensures reply.Failure? ==> reservations == old(reservations) && spots == old(spots)
    {
      var expired := ExpiredIds(reservations, now);
      if expired != {} {
        if !commitOk {
          return InternalError;
        }
        var spotIds := set id | id in expired :: reservations[id].spotId;
        SweepKeepsInvariant(reservations, spots, now);
        reservations := CompleteRows(reservations, expired);
        spots := FreeSpots(spots, spotIds);
      }
      reply := ExpiredProcessed(|expired|);
    }

    /** `POST /api/vehicles` */
    method AddVehicle(userId: nat, licensePlate: string, make: string, model: string,
                      color: Option<string>, year: Option<int>, commitOk: bool) returns (reply: Reply)
      requires Valid()
      modifies this
      ensures Valid()
      ensures reservations == old(reservations) && spots == old(spots) && users == old(users)
      ensures nextReservationId == old(nextReservationId)
      ensures (exists v | v in old(vehicles) :: old(vehicles)[v].userId == userId && old(vehicles)[v].licensePlate == licensePlate) ==>
        reply == Failure(400, DuplicatePlate)
      ensures !(exists v | v in old(vehicles) :: old(vehicles)[v].userId == userId && old(vehicles)[v].licensePlate == licensePlate) ==>
        reply == if commitOk then Success else InternalError
      ensures reply == Success ==>
        var primary := OwnedBy(old(vehicles), userId) == {};
        var stored := Vehicle(userId, licensePlate, make, model,
                              if color == Some("") then None else color,
                              if year == Some(0) then None else year, primary);
        && old(nextVehicleId) !in old(vehicles)
        && vehicles == old(vehicles)[old(nextVehicleId) := stored]
        && profilePlates == if primary && userId in old(profilePlates) then old(profilePlates)[userId := licensePlate] else old(profilePlates)
      ensures reply != Success ==> vehicles == old(vehicles) && profilePlates == old(profilePlates)
    {
      if exists v | v in vehicles :: vehicles[v].userId == userId && vehicles[v].licensePlate == licensePlate {
        return Failure(400, DuplicatePlate);
      }
      var isPrimary := OwnedBy(vehicles, userId) == {};
      if !commitOk {
        return InternalError;
      }
      var storedColor := if color == Some("") then None else color;
      var storedYear := if year == Some(0) then None else year;
      var id := nextVehicleId;
      AddKeepsOnePrimary(vehicles, id, Vehicle(userId, licensePlate, make, model, storedColor, storedYear, isPrimary));
      vehicles := vehicles[id := Vehicle(userId, licensePlate, make, model, storedColor, storedYear, isPrimary)];
      nextVehicleId := nextVehicleId + 1;
      if isPrimary && userId in profilePlates {
        profilePlates := profilePlates[userId := licensePlate];
      }
      reply := Success;
    }

    /** `PUT /api/vehicles/:vehicleId/set-primary` */
    method SetPrimaryVehicle(userId: nat, vehicleId: nat) returns (reply: Reply)
      requires Valid()
      modifies this
      ensures Valid()
      ensures reservations == old(reservations) && spots == old(spots) && users == old(users)
      ensures nextReservationId == old(nextReservationId) && nextVehicleId == old(nextVehicleId)
      ensures vehicleId !in old(vehicles) || old(vehicles)[vehicleId].userId != userId <==> reply == Failure(404, VehicleNotFound)
      ensures vehicleId in old(vehicles) && old(vehicles)[vehicleId].userId == userId <==> reply == Success
      ensures reply == Success ==>
        && vehicles == MarkPrimary(old(vehicles), userId, vehicleId)
        && (forall v :: v in vehicles && vehicles[v].userId == userId ==> (vehicles[v].isPrimary <==> v == vehicleId))
        && profilePlates == if userId in old(profilePlates) then old(profilePlates)[userId := old(vehicles)[vehicleId].licensePlate] else old(profilePlates)
      ensures reply != Success ==> vehicles == old(vehicles) && profilePlates == old(profilePlates)
    {
      if vehicleId !in vehicles || vehicles[vehicleId].userId != userId {
        return Failure(404, VehicleNotFound);
      }
      ghost var marked := MarkPrimary(vehicles, userId, vehicleId);
      assert OnePrimaryPerOwner(marked) by {
        MarkPrimaryKeepsOnePrimary(vehicles, userId, vehicleId);
      }
      assert marked.Keys == vehicles.Keys && forall v :: v in marked && marked[v].userId == userId ==> (marked[v].isPrimary <==> v == vehicleId) by {
        MarkPrimarySelectsOne(vehicles, userId, vehicleId);
      }
      var plate := vehicles[vehicleId].licensePlate;
      vehicles := MarkPrimary(vehicles, userId, vehicleId);
      if userId in profilePlates {
        profilePlates := profilePlates[userId := plate];
      }
      reply := Success;
    }

    /** `DELETE /api/vehicles/:vehicleId` */
    method DeleteVehicle(userId: nat, vehicleId: nat) returns (reply: Reply)
      requires Valid()
      modifies this
      ensures Valid()
      ensures reservations == old(reservations) && spots == old(spots) && users == old(users) && profilePlates == old(profilePlates)
      ensures nextReservationId == old(nextReservationId) && nextVehicleId == old(nextVehicleId)
      ensures vehicleId !in old(vehicles) || old(vehicles)[vehicleId].userId != userId ==> reply == Failure(404, VehicleNotFound)
      ensures vehicleId in old(vehicles) && old(vehicles)[vehicleId].userId == userId ==>
        && (|OwnedBy(old(vehicles), userId)| == 1 ==>
              reply == Failure(400, OnlyVehicle))
        && (|OwnedBy(old(vehicles), userId)| != 1 && old(vehicles)[vehicleId].isPrimary ==>
              reply == Failure(400, PrimaryVehicle))
        && (|OwnedBy(old(vehicles), userId)| != 1 && !old(vehicles)[vehicleId].isPrimary ==> reply == Success)
      ensures reply == Success ==> vehicles == old(vehicles) - {vehicleId}
      ensures reply != Success ==> vehicles == old(vehicles)
    {
      if vehicleId !in vehicles || vehicles[vehicleId].userId != userId {
        return Failure(404, VehicleNotFound);
      }
      if |OwnedBy(vehicles, userId)| == 1 {
        return Failure(400, OnlyVehicle);
      }
      if vehicles[vehicleId].isPrimary {
        return Failure(400, PrimaryVehicle);
      }
      RemoveNonPrimaryKeepsOnePrimary(vehicles, vehicleId);
      vehicles := vehicles - {vehicleId};
      reply := Success;
    }

    /** `DELETE /api/profile/delete-account`; `passwordMatches` is the outcome of the bcrypt comparison. */
    method DeleteAccount(userId: nat, passwordMatches: bool, now: L.Instant, commitOk: bool) returns (reply: Reply)
      requires Valid()
      modifies this
      ensures Valid() && LedgerStep(old(reservations), reservations)
      ensures spots == old(spots) && nextReservationId == old(nextReservationId) && nextVehicleId == old(nextVehicleId)
      ensures userId !in old(users) ==> reply == Failure(404, UserNotFound)
      ensures userId in old(users) && !passwordMatches ==> reply == Failure(400, IncorrectPassword)
      ensures userId in old(users) && passwordMatches ==>
        reply == if HoldsLiveReservation(old(reservations), userId, now)
                 then Failure(400, HasActiveReservations)
                 else if commitOk then Success else InternalError
      ensures reply == Success ==>
        && reservations == ReservationsNotOf(old(reservations), userId)
        && vehicles == VehiclesNotOf(old(vehicles), userId)
        && profilePlates == old(profilePlates) - {userId}
        && users == old(users) - {userId}
      ensures reply != Success ==>
        reservations == old(reservations) && vehicles == old(vehicles) && profilePlates == old(profilePlates) && users == old(users)
    {
      if userId !in users {
        return Failure(404, UserNotFound);
      }
      if !passwordMatches {
        return Failure(400, IncorrectPassword);
      }
      if HoldsLiveReservation(reservations, userId, now) {
        return Failure(400, HasActiveReservations);
      }
      if !commitOk {
        return InternalError;
      }
      RemoveOwnerKeepsOnePrimary(vehicles, userId);
      reservations := ReservationsNotOf(reservations, userId);
      vehicles := VehiclesNotOf(vehicles, userId);
      profilePlates := profilePlates - {userId};
      users := users - {userId};
      reply := Success;
    }
  }

  /**
   * The guard of account deletion: an `active` row of the user with
   * `end_time > NOW()`. It is absent exactly when every active row of the user
   * is one the expiry sweep would complete at that instant.
   */
  function HoldsLiveReservation(rs: map<nat, Reservation>, userId: nat, now: L.Instant): (b: bool)
    ensures !b <==> forall id | id in rs && rs[id].userId == userId && rs[id].status.Active? :: id in ExpiredIds(rs, now)
  {
    exists id | id in rs :: rs[id].userId == userId && rs[id].status.Active? && rs[id].endTime > now
  }

  /** `DELETE FROM reservations WHERE user_id = ?` */
  function ReservationsNotOf(rs: map<nat, Reservation>, userId: nat): map<nat, Reservation> {
    map id | id in rs && rs[id].userId != userId :: rs[id]
  }

  /** `DELETE FROM user_vehicles WHERE user_id = ?` */
  function VehiclesNotOf(vs: map<nat, Vehicle>, userId: nat): map<nat, Vehicle> {
    map v | v in vs && vs[v].userId != userId :: vs[v]
  }

  /** `UPDATE user_vehicles SET is_primary = FALSE WHERE user_id = ?` */
  function ClearPrimary(vs: map<nat, Vehicle>, userId: nat): map<nat, Vehicle> {
    map v | v in vs :: if vs[v].userId == userId then vs[v].(isPrimary := false) else vs[v]
  }

  /** The two updates of the set-primary handler: clear the user's flags, then set the chosen one. */
  function MarkPrimary(vs: map<nat, Vehicle>, userId: nat, vehicleId: nat): map<nat, Vehicle>
    requires vehicleId in vs
  {
    var cleared := ClearPrimary(vs, userId);
    cleared[vehicleId := cleared[vehicleId].(isPrimary := true)]
  }

  // ---------------------------------------------------------------------------
  // How the handlers keep the invariants

  lemma SweepKeepsInvariant(rs: map<nat, Reservation>, spots: map<nat, Spot>, now: L.Instant)
    requires ActiveHoldsSpot(rs, spots) && OneActivePerSpot(rs)
    ensures var due := ExpiredIds(rs, now);
      var rs' := CompleteRows(rs, due);
      && ActiveHoldsSpot(rs', FreeSpots(spots, set id | id in due :: rs[id].spotId))
      && OneActivePerSpot(rs')
      && LedgerStep(rs, rs')
      && rs'.Keys == rs.Keys
  {
  }

  /** Booking an available spot under a fresh id keeps both reservation invariants and is a ledger step. */
  lemma BookKeepsInvariant(rs: map<nat, Reservation>, spots: map<nat, Spot>, id: nat, r: Reservation)
    requires ActiveHoldsSpot(rs, spots) && OneActivePerSpot(rs)
    requires id !in rs && r.status.Active? && r.spotId in spots && spots[r.spotId].isAvailable
    ensures var rs', spots' := rs[id := r], spots[r.spotId := spots[r.spotId].(isAvailable := false)];
      ActiveHoldsSpot(rs', spots') && OneActivePerSpot(rs') && LedgerStep(rs, rs')
  {
  }

  /** Moving a booking's end and cost forward keeps both reservation invariants and is a ledger step. */
  lemma RetimeKeepsInvariant(rs: map<nat, Reservation>, spots: map<nat, Spot>, id: nat, newEnd: L.Instant, newCost: L.Cents)
    requires ActiveHoldsSpot(rs, spots) && OneActivePerSpot(rs)
    requires id in rs && newEnd >= rs[id].endTime && newCost >= rs[id].totalCost
    ensures var rs' := rs[id := rs[id].(endTime := newEnd, totalCost := newCost)];
      ActiveHoldsSpot(rs', spots) && OneActivePerSpot(rs') && LedgerStep(rs, rs')
  {
  }

  /** The primary vehicle of the owner of vehicle `a`. */
  lemma PrimaryOf(vs: map<nat, Vehicle>, a: nat) returns (p: nat)
    requires OnePrimaryPerOwner(vs) && a in vs
    ensures p in vs && vs[p].userId == vs[a].userId && vs[p].isPrimary
  {
    assert vs[a].userId in Owners(vs);
    p :| p in vs && vs[p].userId == vs[a].userId && vs[p].isPrimary;
  }

  lemma AddKeepsOnePrimary(vs: map<nat, Vehicle>, id: nat, v: Vehicle)
    requires OnePrimaryPerOwner(vs) && id !in vs
    requires v.isPrimary <==> OwnedBy(vs, v.userId) == {}
    ensures OnePrimaryPerOwner(vs[id := v])
  {
    var vs' := vs[id := v];
    assert v.isPrimary ==> forall b :: b in vs ==> b !in OwnedBy(vs, v.userId);
    forall u | u in Owners(vs')
      ensures HasPrimary(vs', u)
    {
      var a :| a in vs' && vs'[a].userId == u;
      if a == id && !v.isPrimary {
        var w :| w in OwnedBy(vs, v.userId);
        var p := PrimaryOf(vs, w);
        assert vs'[p] == vs[p];
      } else if a != id {
        var p := PrimaryOf(vs, a);
        assert vs'[p] == vs[p];
      }
    }
  }

  /** After set-primary the chosen vehicle is the user's only primary one; other users' vehicles and all other columns are untouched. */
  lemma MarkPrimarySelectsOne(vs: map<nat, Vehicle>, userId: nat, vehicleId: nat)
    requires vehicleId in vs && vs[vehicleId].userId == userId
    ensures var vs' := MarkPrimary(vs, userId, vehicleId);
      && vs'.Keys == vs.Keys
      && (forall v :: v in vs' && vs'[v].userId == userId ==> (vs'[v].isPrimary <==> v == vehicleId))
      && (forall v :: v in vs' && vs'[v].userId != userId ==> vs'[v] == vs[v])
      && (forall v :: v in vs' ==> vs'[v] == vs[v].(isPrimary := vs'[v].isPrimary))
  {
  }

  lemma MarkPrimaryKeepsOnePrimary(vs: map<nat, Vehicle>, userId: nat, vehicleId: nat)
    requires OnePrimaryPerOwner(vs) && vehicleId in vs && vs[vehicleId].userId == userId
    ensures OnePrimaryPerOwner(MarkPrimary(vs, userId, vehicleId))
  {
    var vs' := MarkPrimary(vs, userId, vehicleId);
    MarkPrimarySelectsOne(vs, userId, vehicleId);
    forall u | u in Owners(vs')
      ensures HasPrimary(vs', u)
    {
      var a :| a in vs' && vs'[a].userId == u;
      if vs'[a].userId == userId {
        assert vs'[vehicleId].isPrimary;
      } else {
        assert vs'[a] == vs[a];
        var p := PrimaryOf(vs, a);
        assert vs'[p] == vs[p];
      }
    }
    forall a, b | a in vs' && b in vs' && vs'[a].isPrimary && vs'[b].isPrimary && vs'[a].userId == vs'[b].userId
      ensures a == b
    {
      if vs'[a].userId != userId {
        assert vs'[a] == vs[a] && vs'[b] == vs[b];
      }
    }
  }

  lemma RemoveNonPrimaryKeepsOnePrimary(vs: map<nat, Vehicle>, id: nat)
    requires OnePrimaryPerOwner(vs) && id in vs && !vs[id].isPrimary
    ensures OnePrimaryPerOwner(vs - {id})
  {
    var vs' := vs - {id};
    forall u | u in Owners(vs')
      ensures HasPrimary(vs', u)
    {
      var a :| a in vs' && vs'[a].userId == u;
      var p := PrimaryOf(vs, a);
      assert p in vs';
    }
  }

  lemma RemoveOwnerKeepsOnePrimary(vs: map<nat, Vehicle>, userId: nat)
    requires OnePrimaryPerOwner(vs)
    ensures OnePrimaryPerOwner(VehiclesNotOf(vs, userId))
  {
    var vs' := VehiclesNotOf(vs, userId);
    forall u | u in Owners(vs')
      ensures HasPrimary(vs', u)
    {
      var a :| a in vs' && vs'[a].userId == u;
      var p := PrimaryOf(vs, a);
      assert p in vs';
    }
  }

  // ---------------------------------------------------------------------------
  // What the conflict queries catch, and why they never fire

  /** A row flagged by the create query overlaps the requested (non-empty) window. */
  lemma CreateConflictIsOverlap(r: Reservation, spotId: nat, start: L.Instant, end: L.Instant)
    requires start < end && CreateConflictRow(r, spotId, start, end)
    ensures r.spotId == spotId && r.status.Active? && Overlaps(r.startTime, r.endTime, start, end)
  {
  }

  /**
   * The create query is not a full overlap test: an active booking lying
   * strictly inside the requested window overlaps it and is not flagged.
   */
  lemma CreateConflictMissesContained(r: Reservation, start: L.Instant, end: L.Instant)
    requires r.status.Active? && start < r.startTime < r.endTime < end
    ensures Overlaps(r.startTime, r.endTime, start, end)
    ensures !CreateConflictRow(r, r.spotId, start, end)
  {
  }

  /** The extend query flags exactly the other active bookings of the spot that overlap the added window `[oldEnd, newEnd)`. */
  lemma ExtendConflictIffOverlap(id: nat, r: Reservation, selfId: nat, spotId: nat, newEnd: L.Instant, oldEnd: L.Instant)
    ensures ExtendConflictRow(id, r, selfId, spotId, newEnd, oldEnd) <==>
      id != selfId && r.spotId == spotId && r.status.Active? && Overlaps(r.startTime, r.endTime, oldEnd, newEnd)
  {
  }

  /** While every active booking holds its spot, an available spot has no active booking, so the create conflict query finds nothing. */
  lemma CreateConflictUnreachable(rs: map<nat, Reservation>, spots: map<nat, Spot>, spotId: nat, start: L.Instant, end: L.Instant)
    requires ActiveHoldsSpot(rs, spots) && spotId in spots && spots[spotId].isAvailable
    ensures !HasCreateConflict(rs, spotId, start, end)
  {
  }

  /** While no spot carries two active bookings, the extend conflict query of an active booking finds nothing. */
  lemma ExtendConflictUnreachable(rs: map<nat, Reservation>, selfId: nat, newEnd: L.Instant)
    requires OneActivePerSpot(rs) && selfId in rs && rs[selfId].status.Active?
    ensures !HasExtendConflict(rs, selfId, rs[selfId].spotId, newEnd, rs[selfId].endTime)
  {
  }

  // ---------------------------------------------------------------------------
  // The expiry sweep

  /** A second sweep at the same instant finds nothing left to expire. */
  lemma SweepIdempotent(rs: map<nat, Reservation>, now: L.Instant)
    ensures ExpiredIds(CompleteRows(rs, ExpiredIds(rs, now)), now) == {}
  {
  }

  /** The sweep completes exactly the due rows and changes nothing else in them or in any other row. */
  lemma SweepOnlyTouchesDue(rs: map<nat, Reservation>, now: L.Instant)
    ensures var due := ExpiredIds(rs, now);
      var rs' := CompleteRows(rs, due);
      && rs'.Keys == rs.Keys
      && (forall id :: id in rs ==> (rs'[id] != rs[id] <==> id in due))
      && (forall id :: id in due ==> rs'[id] == rs[id].(status := L.Completed))
  {
  }

  /** A later sweep selects every row an earlier one would have. */
  lemma ExpiredGrowsWithTime(rs: map<nat, Reservation>, t1: L.Instant, t2: L.Instant)
    requires t1 <= t2
    ensures ExpiredIds(rs, t1) <= ExpiredIds(rs, t2)
  {
  }

  /** Steps compose: over any run of handlers no row is reactivated, re-owned, moved, or shortened. */
  lemma LedgerStepTransitive(a: map<nat, Reservation>, b: map<nat, Reservation>, c: map<nat, Reservation>)
    requires LedgerStep(a, b) && LedgerStep(b, c)
    requires forall id :: id in a && id in c ==> id in b
    ensures LedgerStep(a, c)
  {
  }

  // ---------------------------------------------------------------------------
  // Vehicles and account deletion

  /**
   * While every owner has exactly one primary vehicle, a user's only vehicle
   * is primary: the delete handler's only-vehicle refusal is covered by its
   * primary refusal, and only the message differs.
   */
  lemma OnlyVehicleIsPrimary(vs: map<nat, Vehicle>, id: nat)
    requires OnePrimaryPerOwner(vs) && id in vs && |OwnedBy(vs, vs[id].userId)| == 1
    ensures vs[id].isPrimary
  {
    var mine := OwnedBy(vs, vs[id].userId);
    var p := PrimaryOf(vs, id);
    assert p in mine && id in mine;
    assert |mine - {id}| == 0;
    assert p !in mine - {id};
  }

  /**
   * Deleting an account whose active booking has ended but was not yet swept
   * removes the booking without freeing its spot: the spot stays unavailable
   * and no active booking is left on it for a sweep to free.
   */
  lemma DeleteAccountStrandsSpot(rs: map<nat, Reservation>, spots: map<nat, Spot>, userId: nat, id: nat, now: L.Instant)
    requires ActiveHoldsSpot(rs, spots) && OneActivePerSpot(rs)
    requires id in rs && rs[id].userId == userId && rs[id].status.Active? && rs[id].endTime <= now
    ensures rs[id].spotId in spots && !spots[rs[id].spotId].isAvailable
    ensures var rest := ReservationsNotOf(rs, userId);
      forall j :: j in rest && rest[j].status.Active? ==> rest[j].spotId != rs[id].spotId
  {
  }
}
