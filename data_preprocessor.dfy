/**
 * The device-level preprocessor of the sensor simulator: it blanks readings
 * of low confidence, remembers the last occupancy it saw per sensor, and
 * suppresses a reading whose occupancy has not changed unless its reading
 * count falls on a heartbeat.
 */
module DataPreprocessor {
  import opened Wrappers

  /** One reading as a sensor produces it; `isOccupied` is Python's `True`, `False` or `None`. */
  datatype SensorReading = SensorReading(
    sensorId: string, timestamp: string, isOccupied: Option<bool>,
    batteryLevel: real, confidence: real, readingCount: int)

  /**
   * The dictionary `preprocess_sensor_data` returns: a copy of the reading with
   * its occupancy possibly blanked, the transmit decision, `state_changed`
   * (absent on a sensor's first reading) and the three bookkeeping keys.
   */
  datatype ProcessedReading = ProcessedReading(
    sensorId: string, timestamp: string, isOccupied: Option<bool>,
    batteryLevel: real, confidence: real, readingCount: int,
    shouldTransmit: bool, stateChanged: Option<bool>,
    processedAt: string, preprocessorVersion: string, transmissionRequired: bool)

  /** What the preprocessor remembers about a sensor. */
  datatype SensorState = SensorState(isOccupied: Option<bool>, timestamp: string, readingCount: int)

  /**
   * `reading_count % heartbeat_interval == 0` in Python: zero exactly when the
   * interval divides the count (the sign convention does not matter here).
   * Count 0 is a heartbeat and no count strictly between 0 and the interval is.
   */
  function OnHeartbeat(readingCount: int, interval: int): (b: bool)
    requires interval != 0
    ensures readingCount == 0 ==> b
    ensures 0 < readingCount < interval ==> !b
  {
    readingCount % interval == 0
  }

  class Preprocessor {
    const confidenceThreshold: real
    const heartbeatInterval: int
    var sensorStates: map<string, SensorState>

    /** `__init__`: the two settings, and no sensor seen yet. */
    constructor (confidenceThreshold: real, heartbeatInterval: int)
      ensures this.confidenceThreshold == confidenceThreshold
      ensures this.heartbeatInterval == heartbeatInterval
      ensures sensorStates == map[]
    {
      this.confidenceThreshold := confidenceThreshold;
      this.heartbeatInterval := heartbeatInterval;
      sensorStates := map[];
    }

    /**
     * `preprocess_sensor_data`. `processedAt` is the `datetime.now()` stamp.
     * The result is `None` when Python would raise `ZeroDivisionError`: an
     * unchanged state checked against a heartbeat interval of 0; the state
     * table is then left as it was.
     */
    method PreprocessSensorData(reading: SensorReading, processedAt: string) returns (out: Option<ProcessedReading>)
      modifies this
      ensures var lowConfidence := reading.confidence < confidenceThreshold;
        var occupancy := if lowConfidence then None else reading.isOccupied;
        var seen := reading.sensorId in old(sensorStates);
        var repeated := seen && old(sensorStates)[reading.sensorId].isOccupied == occupancy;
        (out.None? <==> repeated && heartbeatInterval == 0)
        && (out.None? ==> sensorStates == old(sensorStates))
        && (out.Some? ==>
              && out.value.sensorId == reading.sensorId && out.value.timestamp == reading.timestamp
              && out.value.batteryLevel == reading.batteryLevel && out.value.confidence == reading.confidence
              && out.value.readingCount == reading.readingCount
              && out.value.isOccupied == occupancy
              && out.value.stateChanged == (if seen then Some(!repeated) else None)
              && out.value.shouldTransmit ==
                   (if repeated then OnHeartbeat(reading.readingCount, heartbeatInterval) else !lowConfidence)
              && out.value.transmissionRequired == out.value.shouldTransmit
              && out.value.processedAt == processedAt && out.value.preprocessorVersion == "v1.0"
              && sensorStates ==
                   old(sensorStates)[reading.sensorId := SensorState(occupancy, reading.timestamp, reading.readingCount)])
    {
      var isOccupied := reading.isOccupied;
      var shouldTransmit: bool;
      if reading.confidence < confidenceThreshold {
        isOccupied := None;
        shouldTransmit := false;
      } else {
        shouldTransmit := true;
      }

      var stateChanged: Option<bool> := None;
      if reading.sensorId in sensorStates {
        var previous := sensorStates[reading.sensorId];
        var changed := previous.isOccupied != isOccupied;
        stateChanged := Some(changed);
        if !changed {
          if heartbeatInterval == 0 {
            return None;
          }
          shouldTransmit := reading.readingCount % heartbeatInterval == 0;
        }
      }

      sensorStates := sensorStates[reading.sensorId := SensorState(isOccupied, reading.timestamp, reading.readingCount)];

      out := Some(ProcessedReading(
        reading.sensorId, reading.timestamp, isOccupied,
        reading.batteryLevel, reading.confidence, reading.readingCount,
        shouldTransmit, stateChanged, processedAt, "v1.0", shouldTransmit));
    }
  }

  /** `should_transmit(processed)`: the `transmission_required` entry, `True` when it is missing. */
  function ShouldTransmit(transmissionRequired: Option<bool>): (b: bool)
    ensures transmissionRequired.None? ==> b
    ensures transmissionRequired.Some? ==> b == transmissionRequired.value
  {
    transmissionRequired.GetOr(true)
  }

  /** Only an explicit `False` stops a transmission. */
  lemma ShouldTransmitUnlessFalse(transmissionRequired: Option<bool>)
    ensures !ShouldTransmit(transmissionRequired) <==> transmissionRequired == Some(false)
  {
  }
}
