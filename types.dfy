/** The domain model of the launch-control simulation: flight phases,
    telemetry samples, log entries, alerts, the aggregate state and the
    actions the reducer accepts. */
module Types {

  datatype Option<+T> = None | Some(value: T)

  /** The nine mutually exclusive flight phases. */
  datatype FlightStatus =
    | Standby | Armed | Countdown | Liftoff | InFlight
    | Apogee | Descent | Landed | Aborted

  /** Every phase, in declaration order. */
  const ALL_STATUSES: seq<FlightStatus> :=
    [Standby, Armed, Countdown, Liftoff, InFlight, Apogee, Descent, Landed, Aborted]

  /** The string value each enum member carries (it is what the header displays). */
  function StatusName(s: FlightStatus): string {
    match s
    case Standby => "STANDBY"
    case Armed => "ARMED"
    case Countdown => "COUNTDOWN"
    case Liftoff => "LIFTOFF"
    case InFlight => "IN_FLIGHT"
    case Apogee => "APOGEE"
    case Descent => "DESCENT"
    case Landed => "LANDED"
    case Aborted => "ABORTED"
  }

  /** The enumeration is closed: it has exactly nine members, each listed
      once, and no two members carry the same string value. */
  lemma StatusesClosed(s: FlightStatus)
    ensures |ALL_STATUSES| == 9 && s in ALL_STATUSES
    ensures forall i, j :: 0 <= i < j < |ALL_STATUSES| ==> ALL_STATUSES[i] != ALL_STATUSES[j]
    ensures forall t :: StatusName(t) == StatusName(s) ==> t == s
  {
  }

  /** One simulated instant; every field is a number in the source. */
  datatype TelemetryPoint = TelemetryPoint(
    time: real,
    altitude: real,
    speed: real,
    acceleration: real,
    thrust: real,
    latitude: real,
    longitude: real)

  /** Severity of a log entry. */
  datatype Severity = Info | Warning | Error

  /** An alert is never INFO: only WARNING or ERROR. */
  type AlertSeverity = k: Severity | k != Info witness Warning

  /** A log entry; `time` is the wall-clock text the browser produced. */
  datatype LogEntry = LogEntry(time: string, message: string, kind: Severity)

  datatype Alert = Alert(message: string, kind: AlertSeverity)

  /** The aggregate simulation state. `alert` is `None` where the source holds null. */
  datatype RocketState = RocketState(
    status: FlightStatus,
    armed: bool,
    flightTime: real,
    telemetry: seq<TelemetryPoint>,
    logs: seq<LogEntry>,
    alert: Option<Alert>)

  /** The closed union of actions; only a tick and an alert carry a payload. */
  datatype Action =
    | Arm
    | Disarm
    | Launch
    | Abort
    | Reset
    | UpdateTick(dt: real)
    | SetAlert(payload: Option<Alert>)
}
