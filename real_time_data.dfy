/**
 * The client's real-time data hooks: the dashboard statistics `fetchData`
 * derives from the list of parking lots, and `searchParking`, which keeps the
 * lots whose name or address mentions the query and orders them by free spots.
 * The lot list itself is what the backend returned; fetching and polling are
 * not part of this model.
 */
module RealTimeData {
  import opened Wrappers
  import opened JsString
  import Ratios

  /** One lot as the backend lists it; the counts may be missing (`null`). */
  datatype LotSummary = LotSummary(name: string, address: string, totalSpots: Option<int>, availableSpots: Option<int>)

  /** `x || 0` on a count: a missing count reads as 0 (and 0 stays 0). */
  function OrZero(x: Option<int>): int {
    if x.Some? then x.value else 0
  }

  function TotalOf(lot: LotSummary): int {
    OrZero(lot.totalSpots)
  }

  function AvailableOf(lot: LotSummary): int {
    OrZero(lot.availableSpots)
  }

  // ---------------------------------------------------------------------------
  // Statistics

  /** `locations.reduce((sum, loc) => sum + (loc.total_spots || 0), 0)` */
  function SumTotal(lots: seq<LotSummary>): int {
    if lots == [] then 0 else SumTotal(lots[..|lots| - 1]) + TotalOf(lots[|lots| - 1])
  }

  /** `locations.reduce((sum, loc) => sum + (loc.available_spots || 0), 0)` */
  function SumAvailable(lots: seq<LotSummary>): int {
    if lots == [] then 0 else SumAvailable(lots[..|lots| - 1]) + AvailableOf(lots[|lots| - 1])
  }

  /** The per-lot occupied count summed: `(total_spots || 0) - (available_spots || 0)`. */
  function SumOccupied(lots: seq<LotSummary>): int {
    if lots == [] then 0 else SumOccupied(lots[..|lots| - 1]) + (TotalOf(lots[|lots| - 1]) - AvailableOf(lots[|lots| - 1]))
  }

  /** Summing the per-lot differences gives the difference of the two sums. */
  lemma {:induction false} OccupiedIsDifference(lots: seq<LotSummary>)
    ensures SumOccupied(lots) == SumTotal(lots) - SumAvailable(lots)
    decreases |lots|
  {
    if lots != [] {
      OccupiedIsDifference(lots[..|lots| - 1]);
    }
  }

  /** A lot whose counts make sense: neither is negative and no more spots are free than exist. */
  predicate Consistent(lot: LotSummary) {
    0 <= AvailableOf(lot) <= TotalOf(lot)
  }

  /** Over consistent lots, the occupied sum lies between 0 and the total sum. */
  lemma {:induction false} OccupiedWithinTotal(lots: seq<LotSummary>)
    requires forall i :: 0 <= i < |lots| ==> Consistent(lots[i])
    ensures 0 <= SumOccupied(lots) <= SumTotal(lots)
    decreases |lots|
  {
    if lots != [] {
      OccupiedWithinTotal(lots[..|lots| - 1]);
      assert Consistent(lots[|lots| - 1]);
    }
  }

  datatype Stats = Stats(
    totalLocations: nat, total: int, available: int, occupied: int, reserved: int, occupancyRate: real)

  /**
   * The `stats` object of `fetchData`: counts and sums over the lots, nothing
   * reserved, and the occupancy rate in percent, 0 when there are no spots.
   * The rate is the exact quotient; the floating-point rounding is not modelled.
   */
  function ComputeStats(locations: seq<LotSummary>): (s: Stats)
    ensures s.totalLocations == |locations|
    ensures s.total == SumTotal(locations) && s.available == SumAvailable(locations)
    ensures s.occupied == s.total - s.available
    ensures s.reserved == 0
    ensures s.total <= 0 ==> s.occupancyRate == 0.0
    ensures s.total > 0 ==> s.occupancyRate * (s.total as real) == (s.occupied as real) * 100.0
  {
    OccupiedIsDifference(locations);
    var total := SumTotal(locations);
    var occupied := SumOccupied(locations);
    Stats(|locations|, total, SumAvailable(locations), occupied, 0,
      if total > 0 then (occupied as real / total as real) * 100.0 else 0.0)
  }

  /** Over consistent lots the occupancy rate is a percentage. */
  lemma RateIsPercentage(locations: seq<LotSummary>)
    requires forall i :: 0 <= i < |locations| ==> Consistent(locations[i])
    ensures 0.0 <= ComputeStats(locations).occupancyRate <= 100.0
  {
    OccupiedWithinTotal(locations);
    var s := ComputeStats(locations);
    if s.total > 0 {
      Ratios.ShareInUnit(s.occupied, s.total);
    }
  }

  // ---------------------------------------------------------------------------
  // Search

  /** The filter of `searchParking`: the lower-cased query occurs in the lower-cased name or address. */
  predicate Matches(lot: LotSummary, query: string) {
    Includes(ToLower(lot.name), ToLower(query)) || Includes(ToLower(lot.address), ToLower(query))
  }

  /** `allLots.filter(...)`: the matching lots, each as often as in the input. */
  function FilterMatches(lots: seq<LotSummary>, query: string): (r: seq<LotSummary>)
    ensures forall i :: 0 <= i < |r| ==> Matches(r[i], query)
    ensures forall x :: multiset(r)[x] == if Matches(x, query) then multiset(lots)[x] else 0
  {
    if lots == [] then []
    else
      var rest := FilterMatches(lots[1..], query);
      assert lots == [lots[0]] + lots[1..];
      if Matches(lots[0], query) then [lots[0]] + rest else rest
  }

  /** Ordered by the comparator `(b.available_spots || 0) - (a.available_spots || 0)`: non-increasing free spots. */
  predicate SortedByAvailable(s: seq<LotSummary>) {
    forall i, j :: 0 <= i < j < |s| ==> AvailableOf(s[i]) >= AvailableOf(s[j])
  }

  /** Places `x` before the first lot with no more free spots than it has. */
  function Insert(x: LotSummary, s: seq<LotSummary>): (r: seq<LotSummary>)
    ensures multiset(r) == multiset(s) + multiset{x}
  {
    if s == [] || AvailableOf(x) >= AvailableOf(s[0]) then
      [x] + s
    else
      assert s == [s[0]] + s[1..];
      [s[0]] + Insert(x, s[1..])
  }

  /** A lot with at least as many free spots as every lot of a sorted list can head it. */
  lemma ConsSorted(a: LotSummary, s: seq<LotSummary>)
    requires SortedByAvailable(s)
    requires forall y :: y in multiset(s) ==> AvailableOf(a) >= AvailableOf(y)
    ensures SortedByAvailable([a] + s)
  {
    var t := [a] + s;
    forall i, j | 0 <= i < j < |t|
      ensures AvailableOf(t[i]) >= AvailableOf(t[j])
    {
      if i == 0 {
        assert t[j] == s[j - 1] && s[j - 1] in multiset(s);
      } else {
        assert t[i] == s[i - 1] && t[j] == s[j - 1];
      }
    }
  }

  /** Inserting into a sorted list keeps it sorted. */
  lemma {:induction false} InsertKeepsSorted(x: LotSummary, s: seq<LotSummary>)
    requires SortedByAvailable(s)
    ensures SortedByAvailable(Insert(x, s))
    decreases |s|
  {
    if s == [] || AvailableOf(x) >= AvailableOf(s[0]) {
      forall y | y in multiset(s)
        ensures AvailableOf(x) >= AvailableOf(y)
      {
        var k :| 0 <= k < |s| && s[k] == y;
        assert k == 0 || AvailableOf(s[0]) >= AvailableOf(s[k]);
      }
      ConsSorted(x, s);
    } else {
      var tail := s[1..];
      assert SortedByAvailable(tail) by {
        forall i, j | 0 <= i < j < |tail|
          ensures AvailableOf(tail[i]) >= AvailableOf(tail[j])
        {
          assert tail[i] == s[i + 1] && tail[j] == s[j + 1];
        }
      }
      InsertKeepsSorted(x, tail);
      var rest := Insert(x, tail);
      forall y | y in multiset(rest)
        ensures AvailableOf(s[0]) >= AvailableOf(y)
      {
        if y != x {
          assert y in multiset(tail);
          var k :| 0 <= k < |tail| && tail[k] == y;
          assert s[k + 1] == y;
        }
      }
      ConsSorted(s[0], rest);
    }
  }

  /** `sort` with the comparator above: an insertion sort that keeps equal lots in their input order. */
  function SortByAvailable(s: seq<LotSummary>): (r: seq<LotSummary>)
    ensures multiset(r) == multiset(s)
    ensures SortedByAvailable(r)
  {
    if s == [] then []
    else
      assert s == [s[0]] + s[1..];
      var sortedTail := SortByAvailable(s[1..]);
      InsertKeepsSorted(s[0], sortedTail);
      Insert(s[0], sortedTail)
  }

  /** What `searchParking` leaves in its state: the results, their count, and whether the lots were fetched. */
  datatype SearchResults = SearchResults(results: seq<LotSummary>, totalFound: nat, fetched: bool)

  /**
   * `searchParking(query)`: a missing query or one shorter than two characters
   * gives no results without fetching; otherwise the fetched lots are filtered
   * and sorted.
   */
  function SearchParking(query: Option<string>, allLots: seq<LotSummary>): (r: SearchResults)
    ensures query.None? || |query.value| < 2 ==> r == SearchResults([], 0, false)
    ensures query.Some? && |query.value| >= 2 ==> r.fetched
    ensures r.totalFound == |r.results|
    ensures SortedByAvailable(r.results)
  {
    if query.None? || |query.value| < 2 then SearchResults([], 0, false)
    else
      var sorted := SortByAvailable(FilterMatches(allLots, query.value));
      SearchResults(sorted, |sorted|, true)
  }

  /**
   * The results of a search are exactly the matching lots, each as often as
   * the backend listed it: every result matches, and no matching lot is dropped.
   */
  lemma SearchFindsExactlyMatches(query: string, allLots: seq<LotSummary>)
    requires |query| >= 2
    ensures var r := SearchParking(Some(query), allLots).results;
      && (forall i :: 0 <= i < |r| ==> Matches(r[i], query))
      && (forall x :: x in allLots && Matches(x, query) ==> x in r)
      && multiset(r) == multiset(FilterMatches(allLots, query))
  {
    var f := FilterMatches(allLots, query);
    var r := SearchParking(Some(query), allLots).results;
    assert multiset(r) == multiset(f);
    forall i | 0 <= i < |r|
      ensures Matches(r[i], query)
    {
      assert r[i] in multiset(r);
      assert multiset(f)[r[i]] > 0;
    }
    forall x | x in allLots && Matches(x, query)
      ensures x in r
    {
      assert multiset(allLots)[x] > 0;
      assert multiset(r)[x] > 0;
    }
  }
}
