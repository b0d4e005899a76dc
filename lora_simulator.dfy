/**
 * The LoRaWAN link of the sensor simulator: the payload built from a
 * processed reading, the compressed form used when the encoded payload is over
 * the size limit, and the transmission counters.
 */
module LoRaSimulator {
  import opened Wrappers
  import DP = DataPreprocessor
  import Ratios

  /**
   * The two payload dictionaries: the full one (keys id, t, o, b, c) and the
   * compressed one with short values (keys i, t, o, b, c).
   */
  datatype Payload =
    | Full(id: string, t: string, o: Option<bool>, b: real, c: real)
    | Compressed(i: string, time: string, flag: int, battery: int, percent: int)

  /** Python's `s[lo:hi]` for `0 <= lo <= hi`: both bounds are cut down to the length first. */
  function PySlice(s: string, lo: nat, hi: nat): (r: string)
    requires lo <= hi
    ensures |s| >= hi ==> r == s[lo..hi]
    ensures |s| <= lo ==> r == ""
    ensures lo < |s| < hi ==> r == s[lo..]
  {
    var h := if hi <= |s| then hi else |s|;
    var l := if lo <= h then lo else h;
    s[l..h]
  }

  /** Python's `int(x)` on a float: truncation toward zero. */
  function Trunc(x: real): (n: int)
    ensures x >= 0.0 ==> n as real <= x < n as real + 1.0
    ensures x < 0.0 ==> n as real - 1.0 < x <= n as real
  {
    if x >= 0.0 then x.Floor else -((-x).Floor)
  }

  /** `prepare_payload`'s dictionary: the reading's fields under the keys id, t, o, b, c. */
  function MakePayload(data: DP.ProcessedReading): (p: Payload)
    ensures p.Full?
    ensures p.id == data.sensorId && p.t == data.timestamp && p.o == data.isOccupied
    ensures p.b == data.batteryLevel && p.c == data.confidence
  {
    Full(data.sensorId, data.timestamp, data.isOccupied, data.batteryLevel, data.confidence)
  }

  /**
   * `_compress_payload`: the id under key i, the time of day (characters 11 to
   * 18 of the timestamp), occupancy as 1 or 0, battery as an integer and the
   * confidence as an integer percentage.
   */
  function CompressPayload(p: Payload): (q: Payload)
    requires p.Full?
    ensures q.Compressed?
    ensures q.i == p.id && q.time == PySlice(p.t, 11, 19)
    ensures q.flag == 1 <==> p.o == Some(true)
    ensures q.flag == 0 <==> p.o != Some(true)
    ensures q.battery == Trunc(p.b) && q.percent == Trunc(p.c * 100.0)
  {
    Compressed(p.id, PySlice(p.t, 11, 19), if p.o == Some(true) then 1 else 0, Trunc(p.b), Trunc(p.c * 100.0))
  }

  /** On an ISO timestamp (`YYYY-MM-DDTHH:MM:SS...`) the compressed time is the eight characters `HH:MM:SS`. */
  lemma CompressedTimeIsTimeOfDay(p: Payload)
    requires p.Full? && |p.t| >= 19
    ensures |CompressPayload(p).time| == 8 && CompressPayload(p).time == p.t[11..19]
  {
  }

  /**
   * A reading the preprocessor blanked for low confidence (`None`) is sent
   * compressed as 0, the same value as a free spot.
   */
  lemma BlankedReadingLooksFree(data: DP.ProcessedReading)
    requires data.isOccupied.None?
    ensures CompressPayload(MakePayload(data)).flag == CompressPayload(MakePayload(data.(isOccupied := Some(false)))).flag
  {
  }

  class Simulator {
    const payloadSizeLimit: int
    const transmissionProbability: real
    var transmissionCount: nat
    var failedTransmissions: nat

    /** No more transmissions have failed than were attempted. */
    ghost predicate Valid()
      reads this
    {
      failedTransmissions <= transmissionCount
    }

    /** `__init__`: the two settings and zeroed counters. */
    constructor (payloadSizeLimit: int, transmissionProbability: real)
      ensures this.payloadSizeLimit == payloadSizeLimit
      ensures this.transmissionProbability == transmissionProbability
      ensures transmissionCount == 0 && failedTransmissions == 0
      ensures Valid()
    {
      this.payloadSizeLimit := payloadSizeLimit;
      this.transmissionProbability := transmissionProbability;
      transmissionCount := 0;
      failedTransmissions := 0;
    }

    /**
     * `prepare_payload`: the full payload, compressed exactly when its encoded
     * size is over the limit, together with that size (before compression).
     * `jsonSize` stands for the byte length of `json.dumps(payload)` in UTF-8.
     */
    function PreparePayload(data: DP.ProcessedReading, jsonSize: Payload -> nat): (r: (Payload, nat))
      reads this
      ensures r.1 == jsonSize(MakePayload(data))
      ensures r.0.Compressed? <==> r.1 > payloadSizeLimit
      ensures r.0.Full? ==> r.0 == MakePayload(data)
      ensures r.0.Compressed? ==> r.0 == CompressPayload(MakePayload(data))
    {
      var payload := MakePayload(data);
      var size := jsonSize(payload);
      if size > payloadSizeLimit then (CompressPayload(payload), size) else (payload, size)
    }

    /**
     * `simulate_transmission`: `draw` is the `random.random()` value; the
     * attempt succeeds when it is below the probability. Every attempt is
     * counted, and a failed one is counted as failed.
     */
    method SimulateTransmission(draw: real) returns (success: bool)
      modifies this
      requires Valid()
      ensures success <==> draw < transmissionProbability
      ensures transmissionCount == old(transmissionCount) + 1
      ensures failedTransmissions == old(failedTransmissions) + (if success then 0 else 1)
      ensures Valid()
    {
      success := draw < transmissionProbability;
      transmissionCount := transmissionCount + 1;
      if !success {
        failedTransmissions := failedTransmissions + 1;
      }
    }

    /** `get_stats()`: the counters and the success rate in percent, 0 before any transmission. */
    function GetStats(): (s: TransmissionStats)
      reads this
      ensures s.totalTransmissions == transmissionCount && s.failedTransmissions == failedTransmissions
      ensures transmissionCount == 0 ==> s.successRate == 0.0
      ensures transmissionCount > 0 ==>
        s.successRate * (transmissionCount as real) == ((transmissionCount - failedTransmissions) as real) * 100.0
      ensures Valid() ==> 0.0 <= s.successRate <= 100.0
    {
      var rate :=
        if transmissionCount > 0 then
          var share := (transmissionCount - failedTransmissions) as real / transmissionCount as real;
          assert Valid() ==> 0.0 <= share <= 1.0 by {
            if Valid() {
              Ratios.ShareInUnit(transmissionCount - failedTransmissions, transmissionCount);
            }
          }
          share * 100.0
        else 0.0;
      TransmissionStats(transmissionCount, failedTransmissions, rate)
    }
  }

  /** The `get_stats` dictionary; the rounding to one decimal is not modelled. */
  datatype TransmissionStats = TransmissionStats(totalTransmissions: nat, failedTransmissions: nat, successRate: real)
}
