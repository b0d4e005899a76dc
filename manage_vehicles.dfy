/**
 * The vehicle management screen of the client: the add/edit form's
 * `validateForm` and `updateFormData`, and the guards that keep a primary
 * vehicle from being deleted or set primary again.
 */
module ManageVehicles {
  import opened Wrappers
  import opened JsString

  datatype VehicleField = LicensePlate | Make | Model | Color | Year

  /** The form state: the text of every field. */
  type VehicleForm = map<VehicleField, string>

  /** The form state always holds all five fields. */
  predicate Complete(form: VehicleForm) {
    forall f :: f in form
  }

  /** The errors `validateForm` can store, each standing for its message. */
  datatype VehicleError = LicensePlateRequired | MakeRequired | ModelRequired | InvalidYear
  {
    function Text(): string {
      match this
      case LicensePlateRequired => "License plate is required"
      case MakeRequired => "Vehicle make is required"
      case ModelRequired => "Vehicle model is required"
      case InvalidYear => "Please enter a valid year"
    }
  }

  /**
   * The year rule: a non-empty year text is rejected when it is not a number
   * or lies outside [1900, currentYear + 1]. `yearNumber` is JavaScript's
   * numeric reading of the text, `None` standing for `NaN`.
   */
  predicate YearRejected(year: string, yearNumber: Option<real>, currentYear: int) {
    year != "" &&
    (yearNumber.None? || yearNumber.value < 1900 as real || yearNumber.value > (currentYear + 1) as real)
  }

  /** What an accepted form satisfies: the three names non-blank and the year absent or in range. */
  predicate Acceptable(form: VehicleForm, yearNumber: Option<real>, currentYear: int)
    requires Complete(form)
  {
    && !IsBlank(form[LicensePlate]) && !IsBlank(form[Make]) && !IsBlank(form[Model])
    && (form[Year] == "" ||
        (yearNumber.Some? && 1900 as real <= yearNumber.value <= (currentYear + 1) as real))
  }

  /** `validateForm`: the error map it stores and whether the form may be submitted. */
  method ValidateForm(form: VehicleForm, yearNumber: Option<real>, currentYear: int)
    returns (errors: map<VehicleField, VehicleError>, valid: bool)
    requires Complete(form)
    ensures LicensePlate in errors <==> IsBlank(form[LicensePlate])
    ensures Make in errors <==> IsBlank(form[Make])
    ensures Model in errors <==> IsBlank(form[Model])
    ensures Year in errors <==> YearRejected(form[Year], yearNumber, currentYear)
    ensures Color !in errors
    ensures forall f :: f in errors ==> errors[f] == ErrorFor(f)
    ensures valid <==> errors == map[]
    ensures valid <==> Acceptable(form, yearNumber, currentYear)
  {
    errors := map[];
    if IsBlank(form[LicensePlate]) {
      errors := errors[LicensePlate := LicensePlateRequired];
    }
    if IsBlank(form[Make]) {
      errors := errors[Make := MakeRequired];
    }
    if IsBlank(form[Model]) {
      errors := errors[Model := ModelRequired];
    }
    if form[Year] != "" &&
      (yearNumber.None? || yearNumber.value < 1900 as real || yearNumber.value > (currentYear + 1) as real) {
      errors := errors[Year := InvalidYear];
    }
    valid := |errors.Keys| == 0;
  }

  /** The one error each field can carry. */
  function ErrorFor(f: VehicleField): VehicleError
    requires !f.Color?
  {
    match f
    case LicensePlate => LicensePlateRequired
    case Make => MakeRequired
    case Model => ModelRequired
    case Year => InvalidYear
  }

  /** An accepted year is either left empty or a number of the accepted range. */
  lemma AcceptedYearInRange(form: VehicleForm, yearNumber: Option<real>, currentYear: int)
    requires Complete(form) && Acceptable(form, yearNumber, currentYear) && form[Year] != ""
    ensures yearNumber.Some? && 1900 as real <= yearNumber.value <= (currentYear + 1) as real
    ensures !YearRejected(form[Year], yearNumber, currentYear)
  {
  }

  /**
   * `updateFormData(field, value)`: the license plate is stored upper-cased,
   * every other field as typed; no other field changes, and an error on the
   * edited field is cleared (set to null, which the map represents by dropping
   * the key).
   */
  function UpdateFormData(form: VehicleForm, errors: map<VehicleField, VehicleError>, field: VehicleField, value: string)
    : (r: (VehicleForm, map<VehicleField, VehicleError>))
    ensures r.0.Keys == form.Keys + {field}
    ensures r.0[field] == if field == LicensePlate then ToUpper(value) else value
    ensures forall f :: f in form && f != field ==> r.0[f] == form[f]
    ensures field !in r.1
    ensures forall f :: f != field ==> (f in r.1 <==> f in errors) && (f in errors ==> r.1[f] == errors[f])
  {
    var stored := if field == LicensePlate then ToUpper(value) else value;
    var newErrors := if field in errors then errors - {field} else errors;
    (form[field := stored], newErrors)
  }

  /** After any edit the stored plate, if it was the edited field, is already upper-case. */
  lemma EditedPlateIsUpperCase(form: VehicleForm, errors: map<VehicleField, VehicleError>, value: string)
    ensures var p := UpdateFormData(form, errors, LicensePlate, value).0[LicensePlate];
      ToUpper(p) == p
  {
    ToUpperIdempotent(value);
  }

  /** Typing the same plate twice leaves the form as typing it once. */
  lemma PlateEditIdempotent(form: VehicleForm, errors: map<VehicleField, VehicleError>, value: string)
    ensures var once := UpdateFormData(form, errors, LicensePlate, value);
      UpdateFormData(once.0, once.1, LicensePlate, value) == once
  {
    var once := UpdateFormData(form, errors, LicensePlate, value);
    var twice := UpdateFormData(once.0, once.1, LicensePlate, value);
    assert twice.0 == once.0;
    assert twice.1 == once.1;
  }

  // ---------------------------------------------------------------------------
  // The primary guards

  /** The `is_primary` column as the client receives it: a JSON boolean or a number. */
  datatype PrimaryFlag = Flag(b: bool) | Number(n: int)

  /** The guard `vehicle.is_primary || vehicle.is_primary === 1`: only `false` and `0` fail it. */
  function IsPrimary(flag: PrimaryFlag): (b: bool)
    ensures b <==> flag != Flag(false) && flag != Number(0)
  {
    (match flag
     case Flag(b) => b
     case Number(n) => n != 0)
    || flag == Number(1)
  }

  /** The second half of the guard adds nothing: `1` is already truthy. */
  lemma GuardIsTruthiness(flag: PrimaryFlag)
    ensures IsPrimary(flag) <==> (flag.Flag? && flag.b) || (flag.Number? && flag.n != 0)
  {
  }

  /** A server-side flag stored as MySQL's 0/1 is read back as the same truth value. */
  lemma TinyIntRoundTrip(primary: bool)
    ensures IsPrimary(Number(if primary then 1 else 0)) <==> primary
    ensures IsPrimary(Flag(primary)) <==> primary
  {
  }

  datatype ClientVehicle = ClientVehicle(id: nat, licensePlate: string, make: string, model: string, isPrimary: PrimaryFlag)

  /** What a tap on a vehicle's button leads to. */
  datatype GuardOutcome =
    | RefusedPrimary     // the "Cannot Delete" alert
    | NothingToDo        // set-primary on the primary vehicle returns at once
    | ConfirmDelete(vehicleId: nat)   // the confirmation dialog whose "Delete" calls deleteVehicle(id)
    | RequestSetPrimary(vehicleId: nat)

  /** `handleDeleteVehicle`: a primary vehicle is refused before any dialog or request. */
  function HandleDeleteVehicle(vehicle: ClientVehicle): (r: GuardOutcome)
    ensures r.RefusedPrimary? <==> IsPrimary(vehicle.isPrimary)
    ensures r.ConfirmDelete? <==> !IsPrimary(vehicle.isPrimary)
    ensures r.ConfirmDelete? ==> r.vehicleId == vehicle.id
  {
    if IsPrimary(vehicle.isPrimary) then RefusedPrimary else ConfirmDelete(vehicle.id)
  }

  /** `handleSetPrimary`: on the primary vehicle nothing happens; otherwise that vehicle is requested. */
  function HandleSetPrimary(vehicle: ClientVehicle): (r: GuardOutcome)
    ensures r.NothingToDo? <==> IsPrimary(vehicle.isPrimary)
    ensures r.RequestSetPrimary? <==> !IsPrimary(vehicle.isPrimary)
    ensures r.RequestSetPrimary? ==> r.vehicleId == vehicle.id
  {
    if IsPrimary(vehicle.isPrimary) then NothingToDo else RequestSetPrimary(vehicle.id)
  }

  /** A vehicle the server stores as primary never reaches the delete request, whichever way the flag arrives. */
  lemma PrimaryNeverDeleted(vehicle: ClientVehicle, primary: bool)
    requires vehicle.isPrimary == Number(if primary then 1 else 0) || vehicle.isPrimary == Flag(primary)
    ensures HandleDeleteVehicle(vehicle).ConfirmDelete? <==> !primary
    ensures HandleSetPrimary(vehicle).RequestSetPrimary? <==> !primary
  {
    TinyIntRoundTrip(primary);
  }
}
