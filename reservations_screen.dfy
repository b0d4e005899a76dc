/**
 * The reservation list screen of the mobile client: the display status it
 * derives from a row, which rows each tab shows, and when the cancel button
 * is offered.
 */
module ReservationsScreen {
  import L = Ledger

  /** The five labels `getReservationStatus` can return. */
  datatype DerivedStatus = Upcoming | Active | Expired | Cancelled | Completed

  /** The fields of a row of `GET /api/reservations` that the screen's logic reads. */
  datatype ReservationRow = ReservationRow(id: nat, status: L.LedgerStatus, startTime: L.Instant, endTime: L.Instant)

  /** The three tab buttons of the screen. */
  datatype Tab = ActiveTab | CompletedTab | CancelledTab

  /**
   * `getReservationStatus`: a cancelled or completed row keeps its ledger
   * status; an active row is upcoming before its start, active from its start
   * to its end (both inclusive) and expired after its end.
   */
  function GetReservationStatus(status: L.LedgerStatus, start: L.Instant, end: L.Instant, now: L.Instant): (d: DerivedStatus)
    ensures status.Cancelled? ==> d == Cancelled
    ensures status.Completed? ==> d == Completed
    ensures d == Upcoming <==> status.Active? && now < start
    ensures d == Active <==> status.Active? && start <= now <= end
    ensures d == Expired <==> status.Active? && start <= now && end < now
  {
    if status.Cancelled? then Cancelled
    else if status.Completed? then Completed
    else if now < start then Upcoming
    else if now >= start && now <= end then Active
    else Expired
  }

  function RowStatus(r: ReservationRow, now: L.Instant): DerivedStatus {
    GetReservationStatus(r.status, r.startTime, r.endTime, now)
  }

  /** For a fixed row, the derived status only moves forward as time passes. */
  function Rank(d: DerivedStatus): nat {
    match d
    case Upcoming => 0
    case Active => 1
    case Expired => 2
    case Cancelled => 3
    case Completed => 3
  }

  lemma StatusMonotoneInTime(status: L.LedgerStatus, start: L.Instant, end: L.Instant, t1: L.Instant, t2: L.Instant)
    requires t1 <= t2
    ensures Rank(GetReservationStatus(status, start, end, t1)) <= Rank(GetReservationStatus(status, start, end, t2))
  {
  }

  /**
   * `canCancel` in `renderReservation` and in the detail modal: the button is
   * offered on exactly the rows the Active tab lists.
   */
  function CanCancel(r: ReservationRow, now: L.Instant): (b: bool)
    ensures b <==> InTab(r, ActiveTab, now)
  {
    var status := RowStatus(r, now);
    (status == Upcoming || status == Active) && r.status.Active?
  }

  /** The cancel button is offered exactly for an active ledger row with `now < start` or `now <= end`. */
  lemma CanCancelIff(r: ReservationRow, now: L.Instant)
    ensures CanCancel(r, now) <==> r.status.Active? && (now < r.startTime || now <= r.endTime)
  {
  }

  /**
   * The `switch (selectedTab)` of `getFilteredReservations`, read in ledger
   * terms: the Active tab lists active rows with `now < start` or `now <= end`,
   * the Completed tab completed rows and active rows with `start <= now` and
   * `end < now` (not yet swept), and the Cancelled tab the cancelled rows.
   */
  function InTab(r: ReservationRow, tab: Tab, now: L.Instant): (b: bool)
    ensures tab == ActiveTab ==> (b <==> r.status.Active? && (now < r.startTime || now <= r.endTime))
    ensures tab == CompletedTab ==>
      (b <==> r.status.Completed? || (r.status.Active? && r.startTime <= now && r.endTime < now))
    ensures tab == CancelledTab ==> (b <==> r.status.Cancelled?)
  {
    var status := RowStatus(r, now);
    match tab
    case ActiveTab => status == Active || status == Upcoming
    case CompletedTab => status == Completed || status == Expired
    case CancelledTab => r.status.Cancelled?
  }

  /**
   * The start test comes first: an active row whose end precedes its start
   * (nothing stops one from being booked) stays upcoming, in the Active tab and
   * cancellable until its start, even once its end has passed.
   */
  lemma InvertedWindowStaysUpcoming(r: ReservationRow, now: L.Instant)
    requires r.status.Active? && r.endTime < r.startTime && now < r.startTime
    ensures RowStatus(r, now) == Upcoming
    ensures InTab(r, ActiveTab, now) && !InTab(r, CompletedTab, now) && CanCancel(r, now)
  {
  }

  /** Every row is listed under exactly one of the three tabs. */
  lemma EachRowInExactlyOneTab(r: ReservationRow, now: L.Instant)
    ensures InTab(r, ActiveTab, now) || InTab(r, CompletedTab, now) || InTab(r, CancelledTab, now)
    ensures !(InTab(r, ActiveTab, now) && InTab(r, CompletedTab, now))
    ensures !(InTab(r, ActiveTab, now) && InTab(r, CancelledTab, now))
    ensures !(InTab(r, CompletedTab, now) && InTab(r, CancelledTab, now))
  {
  }

  /** `getFilteredReservations`: `reservations.filter(...)` for the selected tab. */
  function GetFilteredReservations(rows: seq<ReservationRow>, tab: Tab, now: L.Instant): (r: seq<ReservationRow>)
    ensures |r| <= |rows|
    ensures forall x :: x in r ==> x in rows && InTab(x, tab, now)
    ensures forall x :: x in rows && InTab(x, tab, now) ==> x in r
  {
    if rows == [] then []
    else
      var rest := GetFilteredReservations(rows[1..], tab, now);
      if InTab(rows[0], tab, now) then [rows[0]] + rest else rest
  }

  /** `sub` is obtained from `s` by deleting elements, keeping the order of the rest. */
  ghost predicate IsSubsequence<T>(sub: seq<T>, s: seq<T>)
    decreases |s|
  {
    if s == [] then sub == []
    else (sub != [] && sub[0] == s[0] && IsSubsequence(sub[1..], s[1..])) || IsSubsequence(sub, s[1..])
  }

  /** Filtering keeps the rows it keeps in their original order. */
  lemma {:induction false} FilterIsSubsequence(rows: seq<ReservationRow>, tab: Tab, now: L.Instant)
    ensures IsSubsequence(GetFilteredReservations(rows, tab, now), rows)
    decreases |rows|
  {
    if rows != [] {
      FilterIsSubsequence(rows[1..], tab, now);
      var r := GetFilteredReservations(rows, tab, now);
      if InTab(rows[0], tab, now) {
        assert r[1..] == GetFilteredReservations(rows[1..], tab, now);
      }
    }
  }

  /** The three tabs split any list of rows: their lengths add up to the list's length. */
  lemma {:induction false} TabsPartitionRows(rows: seq<ReservationRow>, now: L.Instant)
    ensures |GetFilteredReservations(rows, ActiveTab, now)| + |GetFilteredReservations(rows, CompletedTab, now)|
            + |GetFilteredReservations(rows, CancelledTab, now)| == |rows|
  {
    if rows != [] {
      EachRowInExactlyOneTab(rows[0], now);
      TabsPartitionRows(rows[1..], now);
    }
  }
}
