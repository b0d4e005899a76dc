/**
 * The client's `ParkingAPI` singleton: the reservation predicates, the cost
 * estimate, the request headers built from the stored token, and the way a
 * failed request is classified (and, for authentication errors, logs out).
 */
module ParkingApi {
  import opened Wrappers
  import opened JsString
  import L = Ledger
  import RS = ReservationsScreen

  /**
   * `isReservationActive`: an active ledger row whose window contains now (both
   * ends inclusive), which is what the reservation screen labels Active.
   */
  function IsReservationActive(status: L.LedgerStatus, start: L.Instant, end: L.Instant, now: L.Instant): (b: bool)
    ensures b <==> RS.GetReservationStatus(status, start, end, now) == RS.Active
    ensures b ==> start <= end
  {
    status.Active? && now >= start && now <= end
  }

  /**
   * `isReservationUpcoming`: an active ledger row that has not started, which
   * the reservation screen labels Upcoming whatever its end time.
   */
  function IsReservationUpcoming(status: L.LedgerStatus, start: L.Instant, now: L.Instant): (b: bool)
    ensures b ==> forall end :: RS.GetReservationStatus(status, start, end, now) == RS.Upcoming
    ensures !b ==> forall end :: RS.GetReservationStatus(status, start, end, now) != RS.Upcoming
  {
    status.Active? && now < start
  }

  /** No row is both active and upcoming at the same instant. */
  lemma ActiveAndUpcomingExclusive(status: L.LedgerStatus, start: L.Instant, end: L.Instant, now: L.Instant)
    ensures !(IsReservationActive(status, start, end, now) && IsReservationUpcoming(status, start, now))
  {
  }

  /** The two predicates agree with the status the reservation list screen derives. */
  lemma AgreesWithScreenStatus(status: L.LedgerStatus, start: L.Instant, end: L.Instant, now: L.Instant)
    ensures IsReservationActive(status, start, end, now) <==> RS.GetReservationStatus(status, start, end, now) == RS.Active
    ensures IsReservationUpcoming(status, start, now) <==> RS.GetReservationStatus(status, start, end, now) == RS.Upcoming
  {
  }

  /**
   * `calculateCost`: the estimate for `hours` hours at `hourlyRate`, in cents
   * (the source formats it with `toFixed(2)`). No time costs nothing, one hour
   * costs the rate, and at a non-negative rate the estimate is never negative
   * and never below one hour's rate once an hour is booked. The extend handler
   * of the backend charges exactly this amount.
   */
  function CalculateCost(hourlyRate: L.Cents, hours: int): (c: L.Cents)
    ensures hours == 0 ==> c == 0
    ensures hours == 1 ==> c == hourlyRate
    ensures hourlyRate >= 0 && hours >= 0 ==> c >= 0
    ensures hourlyRate >= 0 && hours >= 1 ==> c >= hourlyRate
  {
    assert hourlyRate >= 0 && hours >= 1 ==> hourlyRate * hours >= hourlyRate by {
      if hourlyRate >= 0 && hours >= 1 {
        assert hourlyRate * hours == hourlyRate + hourlyRate * (hours - 1);
      }
    }
    hourlyRate * hours
  }

  /** Booking h1 hours and then h2 more costs the same as booking h1 + h2 at once. */
  lemma CostAdditive(hourlyRate: L.Cents, h1: int, h2: int)
    ensures CalculateCost(hourlyRate, h1 + h2) == CalculateCost(hourlyRate, h1) + CalculateCost(hourlyRate, h2)
  {
    assert hourlyRate * (h1 + h2) == hourlyRate * h1 + hourlyRate * h2;
  }

  /** At a non-negative rate, more hours never cost less. */
  lemma CostMonotone(hourlyRate: L.Cents, h1: int, h2: int)
    requires hourlyRate >= 0 && h1 <= h2
    ensures CalculateCost(hourlyRate, h1) <= CalculateCost(hourlyRate, h2)
  {
    CostAdditive(hourlyRate, h1, h2 - h1);
    assert hourlyRate * (h2 - h1) >= 0;
  }

  /** Decimal rendering of a status code, as in a template literal. */
  function NatToString(n: nat): (s: string)
    ensures |s| > 0
    decreases n
  {
    var d := [(n % 10 + '0' as int) as char];
    if n < 10 then d else NatToString(n / 10) + d
  }

  /** How `makeRequest` can fail: a non-OK response (with its JSON `error`, if any) or a thrown error. */
  datatype RequestFailure = HttpError(error: Option<string>, httpStatus: nat) | Thrown(message: string)

  /**
   * The message of the error `makeRequest` catches: `data.error || "HTTP error! status: ..."`.
   * A non-empty server text is passed through, a missing or empty one is
   * replaced by the generic text, so a failed response never has an empty
   * message; a thrown error keeps its own message.
   */
  function ErrorMessage(f: RequestFailure): (m: string)
    ensures f.HttpError? && f.error.Some? && f.error.value != "" ==> m == f.error.value
    ensures f.HttpError? && (f.error.None? || f.error.value == "") ==> "HTTP error! status: " <= m
    ensures f.HttpError? ==> m != ""
    ensures f.Thrown? ==> m == f.message
  {
    match f
    case HttpError(e, st) =>
      if e.Some? && e.value != "" then e.value else "HTTP error! status: " + NatToString(st)
    case Thrown(m) => m
  }

  datatype ErrorKind = AuthError | NetworkError | OtherError

  /** The two `includes` tests of `makeRequest`'s catch block, in their order. */
  function ClassifyError(message: string): (k: ErrorKind)
    ensures k == AuthError <==> Includes(message, "401") || Includes(message, "403")
    ensures k == NetworkError <==>
      !Includes(message, "401") && !Includes(message, "403") &&
      (Includes(message, "Network request failed") || Includes(message, "fetch"))
  {
    if Includes(message, "401") || Includes(message, "403") then AuthError
    else if Includes(message, "Network request failed") || Includes(message, "fetch") then NetworkError
    else OtherError
  }

  /**
   * A 401 or 403 response logs the user out only when its message mentions the
   * code: a server error text such as "Unauthorized" or "Invalid token" (which
   * has no digit 4 in it) is passed through and the token is kept.
   */
  lemma ServerMessageDecidesLogout(e: string, st: nat)
    requires e != "" && forall i :: 0 <= i < |e| ==> e[i] != '4'
    ensures ErrorMessage(HttpError(Some(e), st)) == e
    ensures ClassifyError(ErrorMessage(HttpError(Some(e), st))) != AuthError
  {
    NotIncludedWithoutFirstChar(e, "401");
    NotIncludedWithoutFirstChar(e, "403");
  }

  /** A 401 response without an error text is reported as "HTTP error! status: 401", which logs out. */
  lemma BareUnauthorizedLogsOut()
    ensures ClassifyError(ErrorMessage(HttpError(None, 401))) == AuthError
  {
    var m := ErrorMessage(HttpError(None, 401));
    assert NatToString(401) == "401" by {
      assert NatToString(4) == "4";
      assert NatToString(40) == "40";
    }
    assert m[20..23] == "401";
    IncludedAt(m, "401", 20);
  }

  class ApiClient {
    const baseUrl: string
    var token: Option<string>

    /** A fresh client holds no token. */
    constructor (baseUrl: string)
      ensures this.baseUrl == baseUrl && token == None
    {
      this.baseUrl := baseUrl;
      token := None;
    }

    /** `setAuthToken`: the in-memory token becomes exactly the given value (storage is not modelled). */
    method SetAuthToken(t: Option<string>)
      modifies this
      ensures token == t
    {
      token := t;
    }

    /** `logout`: the token is cleared. */
    method Logout()
      modifies this
      ensures token == None
    {
      SetAuthToken(None);
      token := None;
    }

    /**
     * `getAuthHeaders`: always the JSON content type; a bearer authorization
     * exactly when the token is truthy (present and non-empty).
     */
    function GetAuthHeaders(): (h: map<string, string>)
      reads this
      ensures "Content-Type" in h && h["Content-Type"] == "application/json"
      ensures "Authorization" in h <==> token.Some? && token.value != ""
      ensures "Authorization" in h ==> h["Authorization"] == "Bearer " + token.value
      ensures h.Keys <= {"Content-Type", "Authorization"}
    {
      var headers := map["Content-Type" := "application/json"];
      if token.Some? && token.value != "" then headers["Authorization" := "Bearer " + token.value]
      else headers
    }

    /**
     * The catch block of `makeRequest`: the message of the error it rethrows,
     * clearing the token first when the message names 401 or 403.
     */
    method HandleRequestFailure(f: RequestFailure) returns (thrown: string)
      modifies this
      ensures var k := ClassifyError(ErrorMessage(f));
        && (k == AuthError ==> token == None && thrown == "Authentication required")
        && (k == NetworkError ==>
              token == old(token) &&
              thrown == "Network error - Please check if the backend server is running on " + baseUrl)
        && (k == OtherError ==> token == old(token) && thrown == ErrorMessage(f))
    {
      var message := ErrorMessage(f);
      if Includes(message, "401") || Includes(message, "403") {
        Logout();
        thrown := "Authentication required";
        return;
      }
      if Includes(message, "Network request failed") || Includes(message, "fetch") {
        thrown := "Network error - Please check if the backend server is running on " + baseUrl;
        return;
      }
      thrown := message;
    }
  }
}
