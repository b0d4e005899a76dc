/**
 * A parking lot of the sensor simulator: its capacity, the occupancy the
 * sensors last reported (clamped into range) and the figures derived from it.
 */
module ParkingLot {
  import opened Wrappers
  import Ratios

  /** `min(max(0, count), total)` */
  function Clamp(count: int, total: int): (r: int)
    ensures total >= 0 ==> 0 <= r <= total
    ensures total >= 0 && 0 <= count <= total ==> r == count
    ensures total >= 0 && count < 0 ==> r == 0
    ensures total >= 0 && count > total ==> r == total
    ensures total < 0 ==> r == total
  {
    var low := if 0 >= count then 0 else count;
    if low <= total then low else total
  }

  /** Clamping a clamped count changes nothing, whatever the capacity. */
  lemma ClampIdempotent(count: int, total: int)
    ensures Clamp(Clamp(count, total), total) == Clamp(count, total)
  {
  }

  /** `to_dict()`: the lot's fields and its derived figures. */
  datatype LotRecord = LotRecord(
    lotId: string, name: string, latitude: real, longitude: real,
    totalSpots: int, occupiedSpots: int, availableSpots: int, occupancyRate: real,
    lastUpdate: Option<string>)

  class Lot {
    const lotId: string
    const name: string
    const latitude: real
    const longitude: real
    const totalSpots: int
    var occupiedSpots: int
    var lastUpdate: Option<string>

    /** With a non-negative capacity, the occupied count never leaves [0, capacity]. */
    ghost predicate Valid()
      reads this
    {
      totalSpots >= 0 ==> 0 <= occupiedSpots <= totalSpots
    }

    /** `__init__`: a new lot is empty and has never been updated. */
    constructor (lotId: string, name: string, latitude: real, longitude: real, totalSpots: int)
      ensures this.lotId == lotId && this.name == name
      ensures this.latitude == latitude && this.longitude == longitude
      ensures this.totalSpots == totalSpots
      ensures occupiedSpots == 0 && lastUpdate == None
      ensures Valid()
    {
      this.lotId := lotId;
      this.name := name;
      this.latitude := latitude;
      this.longitude := longitude;
      this.totalSpots := totalSpots;
      occupiedSpots := 0;
      lastUpdate := None;
    }

    /** `update_occupancy(count)`: the count clamped into range, stamped with `now` (the `datetime.now()` text). */
    method UpdateOccupancy(occupiedCount: int, now: string)
      modifies this
      ensures occupiedSpots == Clamp(occupiedCount, totalSpots)
      ensures lastUpdate == Some(now)
      ensures Valid()
    {
      occupiedSpots := Clamp(occupiedCount, totalSpots);
      lastUpdate := Some(now);
    }

    /** `get_availability()`: the free spots, within [0, capacity] while the lot is valid. */
    function GetAvailability(): (a: int)
      reads this
      ensures a + occupiedSpots == totalSpots
      ensures Valid() && totalSpots >= 0 ==> 0 <= a <= totalSpots
    {
      totalSpots - occupiedSpots
    }

    /** `get_occupancy_rate()`: 0 for a lot without spots, otherwise the occupied share in percent. */
    function GetOccupancyRate(): (rate: real)
      reads this
      ensures totalSpots == 0 ==> rate == 0.0
      ensures totalSpots != 0 ==> rate * (totalSpots as real) == (occupiedSpots as real) * 100.0
      ensures Valid() && totalSpots > 0 ==> 0.0 <= rate <= 100.0
    {
      if totalSpots == 0 then 0.0
      else
        var share := occupiedSpots as real / totalSpots as real;
        assert Valid() && totalSpots > 0 ==> 0.0 <= share <= 1.0 by {
          if Valid() && totalSpots > 0 {
            Ratios.ShareInUnit(occupiedSpots, totalSpots);
          }
        }
        share * 100.0
    }

    /** `to_dict()`: the reported availability and rate are the lot's own derived figures. */
    function ToDict(): (d: LotRecord)
      reads this
      ensures d.lotId == lotId && d.name == name && d.latitude == latitude && d.longitude == longitude
      ensures d.totalSpots == totalSpots && d.occupiedSpots == occupiedSpots && d.lastUpdate == lastUpdate
      ensures d.availableSpots + d.occupiedSpots == d.totalSpots
      ensures d.occupancyRate == GetOccupancyRate()
    {
      LotRecord(lotId, name, latitude, longitude, totalSpots, occupiedSpots,
        GetAvailability(), GetOccupancyRate(), lastUpdate)
    }
  }
}
