/** The flight-simulation reducer: a pure map from (state, action) to the
    next state. The browser's clock text, `Math.random()` and `Math.sin` /
    `Math.cos` reach it through an `Env` value. */
module Simulation {
  import opened Types
  import opened Builtins

  const MAX_TELEMETRY_POINTS: nat := 100
  const MAX_LOGS: nat := 50
  const BURN_TIME: real := 8.0
  const GRAVITY: real := 9.81
  const MASS: real := 150.0
  const PEAK_THRUST: real := 7000.0
  const COUNTDOWN_START: real := -10.0

  const GROUND_POINT: TelemetryPoint :=
    TelemetryPoint(0.0, 0.0, 0.0, 0.0, 0.0, 34.0522, -118.2437)

  const INITIAL_STATE: RocketState :=
    RocketState(Standby, false, 0.0, [GROUND_POINT], [], None)

  const ARM_MESSAGE := "System armed. Ready for launch."
  const DISARM_MESSAGE := "System disarmed."
  const LAUNCH_MESSAGE := "Launch sequence initiated. T-10 seconds."
  const ABORT_MESSAGE := "LAUNCH ABORTED BY USER."
  const LIFTOFF_MESSAGE := "Liftoff!"
  const TOUCHDOWN_MESSAGE := "Touchdown. Mission complete."
  const ABORT_ALERT := Alert("Launch Aborted!", Error)
  const LANDED_ALERT := Alert("Rocket has landed safely.", Warning)

  /** The range of `Math.random()`. */
  type UnitInterval = r: real | 0.0 <= r < 1.0

  /** What the reducer takes from outside: the wall-clock text of
      `toLocaleTimeString()`, one draw of `Math.random()`, and the sine and
      cosine functions. */
  datatype Env = Env(clock: string, random: UnitInterval, sin: real -> real, cos: real -> real)

  // ---- bounded buffers ----

  /** `after` is `before` with one entry pushed on the front and the oldest
      dropped beyond 50. */
  predicate PushedOne(before: seq<LogEntry>, after: seq<LogEntry>) {
    && |after| == MinNat(|before| + 1, MAX_LOGS)
    && after[1..] == before[..|after| - 1]
  }

  /** `after` is `before` with the given entry pushed on the front. */
  predicate Prepended(before: seq<LogEntry>, after: seq<LogEntry>, message: string, kind: Severity, clock: string) {
    PushedOne(before, after) && after[0] == LogEntry(clock, message, kind)
  }

  /** Prepends a new entry and keeps the 50 newest. */
  function AddLog(logs: seq<LogEntry>, message: string, kind: Severity, clock: string): (r: seq<LogEntry>)
    ensures Prepended(logs, r, message, kind, clock)
  {
    ([LogEntry(clock, message, kind)] + logs)[..MinNat(|logs| + 1, MAX_LOGS)]
  }

  /** Appends a sample and keeps the 100 most recent, oldest first. */
  function AppendPoint(telemetry: seq<TelemetryPoint>, p: TelemetryPoint): (r: seq<TelemetryPoint>)
    ensures |r| == MinNat(|telemetry| + 1, MAX_TELEMETRY_POINTS)
    ensures r[|r| - 1] == p
    ensures r[..|r| - 1] == telemetry[|telemetry| - (|r| - 1)..]
  {
    var all := telemetry + [p];
    if |all| > MAX_TELEMETRY_POINTS then all[|all| - MAX_TELEMETRY_POINTS..] else all
  }

  function Last(telemetry: seq<TelemetryPoint>): TelemetryPoint
    requires telemetry != []
  {
    telemetry[|telemetry| - 1]
  }

  // ---- the tick ----

  /** The four phases in which a tick records no telemetry. */
  predicate IsPassive(status: FlightStatus) {
    status == Standby || status == Armed || status == Landed || status == Aborted
  }

  /** Burn-phase thrust: a linear ramp from 7000 down to 0 over the burn,
      plus up to 100 of random jitter. */
  function BurnThrust(flightTime: real, random: UnitInterval): real {
    PEAK_THRUST * (1.0 - flightTime / BURN_TIME) + random * 100.0
  }

  function ApogeeMessage(altitude: real): string {
    "Apogee reached at " + ToFixed0(altitude) + "m."
  }

  function CountdownMessage(secondsLeft: nat): string {
    "T-" + NatToString(secondsLeft) + "..."
  }

  /** Appends the new sample unless the phase is passive. */
  function Record(st: RocketState, p: TelemetryPoint): RocketState {
    if IsPassive(st.status) then st else st.(telemetry := AppendPoint(st.telemetry, p))
  }

  /** Still counting down: a "T-N" entry when the ceiling of the flight
      time moves up. */
  function CountdownStep(previousTime: real, st: RocketState, env: Env): RocketState {
    var secondsLeft := Abs(Ceil(st.flightTime));
    if Ceil(previousTime) < Ceil(st.flightTime) then
      st.(logs := AddLog(st.logs, CountdownMessage(secondsLeft), Info, env.clock))
    else st
  }

  /** The burn-phase sample (LIFTOFF / IN_FLIGHT) at flight time `ft`:
      the thrust ramp or, past the burn, free fall; clamped speed and
      altitude; GPS drift along the flight-time angle. */
  function BurnSample(ft: real, last: TelemetryPoint, dt: real, env: Env): TelemetryPoint {
    var burnOver := ft > BURN_TIME;
    var thrust := if burnOver then 0.0 else BurnThrust(ft, env.random);
    var acceleration := if burnOver then -GRAVITY else thrust / MASS - GRAVITY;
    var speed := MaxReal(0.0, last.speed + last.acceleration * dt);
    var altitude := MaxReal(0.0, last.altitude + last.speed * dt);
    TelemetryPoint(
      last.time + dt, altitude, speed, acceleration, thrust,
      last.latitude + (speed / 500000.0) * env.sin(ft),
      last.longitude + (speed / 500000.0) * env.cos(ft))
  }

  /** The burn-phase transition for the new sample `p`: IN_FLIGHT within
      the burn, APOGEE past it, and straight on to DESCENT (with a log)
      when that sample is already slow and high. */
  function BurnPhase(st: RocketState, p: TelemetryPoint, env: Env): RocketState {
    if st.flightTime <= BURN_TIME then st.(status := InFlight)
    else if p.speed < 1.0 && p.altitude > 100.0 then
      st.(status := Descent, logs := AddLog(st.logs, ApogeeMessage(p.altitude), Info, env.clock))
    else st.(status := Apogee)
  }

  /** The coast phase (APOGEE / DESCENT): gravity only, landing at altitude 0. */
  function CoastStep(st: RocketState, last: TelemetryPoint, dt: real, env: Env): (RocketState, TelemetryPoint) {
    var ft := st.flightTime;
    var acceleration := -GRAVITY;
    var speed := last.speed + acceleration * dt;
    var altitude := MaxReal(0.0, last.altitude + last.speed * dt);
    var p := TelemetryPoint(
      last.time + dt, altitude, speed, acceleration, 0.0,
      last.latitude + (speed / 500000.0) * env.sin(ft),
      last.longitude + (speed / 500000.0) * env.cos(ft));
    if altitude <= 0.0 then
      (st.(status := Landed,
           logs := AddLog(st.logs, TOUCHDOWN_MESSAGE, Info, env.clock),
           alert := Some(LANDED_ALERT)),
       p.(altitude := 0.0, speed := 0.0, acceleration := 0.0))
    else
      (st, p)
  }

  /** After the countdown: derive a sample from the last one, apply the
      phase rules, and record the sample in active phases. */
  function Kinematics(st: RocketState, dt: real, env: Env): RocketState
    requires st.telemetry != []
  {
    var last := Last(st.telemetry);
    match st.status
    case Liftoff | InFlight =>
      var p := BurnSample(st.flightTime, last, dt, env);
      Record(BurnPhase(st, p, env), p)
    case Apogee | Descent =>
      var (next, p) := CoastStep(st, last, dt, env);
      Record(next, p)
    case _ =>
      Record(st, last.(time := last.time + dt))
  }

  /** UPDATE_TICK(dt). Once the advanced clock is non-negative the source
      reads the last sample, so the buffer must not be empty then; a tick
      that returns early needs no sample. */
  function Tick(s: RocketState, dt: real, env: Env): RocketState
    requires s.flightTime + dt >= 0.0 ==> s.telemetry != []
  {
    var ticked := s.(flightTime := s.flightTime + dt);
    if ticked.status == Countdown && ticked.flightTime < 0.0 then
      CountdownStep(s.flightTime, ticked, env)
    else
      var started :=
        if ticked.status == Countdown then
          ticked.(status := Liftoff, logs := AddLog(ticked.logs, LIFTOFF_MESSAGE, Info, env.clock), flightTime := 0.0)
        else ticked;
      if started.flightTime < 0.0 then started
      else Kinematics(started, dt, env)
  }

  /** The reducer. */
  function Reduce(s: RocketState, a: Action, env: Env): RocketState
    requires a.UpdateTick? && s.flightTime + a.dt >= 0.0 ==> s.telemetry != []
  {
    match a
    case Arm =>
      if s.status == Standby then
        s.(armed := true, status := Armed, logs := AddLog(s.logs, ARM_MESSAGE, Info, env.clock))
      else s
    case Disarm =>
      s.(armed := false, status := Standby, logs := AddLog(s.logs, DISARM_MESSAGE, Info, env.clock))
    case Launch =>
      if s.armed then
        s.(status := Countdown, flightTime := COUNTDOWN_START, logs := AddLog(s.logs, LAUNCH_MESSAGE, Warning, env.clock))
      else s
    case Abort =>
      INITIAL_STATE.(status := Aborted, logs := AddLog(s.logs, ABORT_MESSAGE, Error, env.clock), alert := Some(ABORT_ALERT))
    case UpdateTick(dt) => Tick(s, dt, env)
    case SetAlert(alert) => s.(alert := alert)
    case Reset => INITIAL_STATE
  }
}
