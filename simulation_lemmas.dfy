/** What the reducer promises: the guards and frames of each action, the
    phase rules of a tick, the state invariant it keeps over any sequence
    of actions, and the countdown driven by the 100 ms timer. */
module SimulationLemmas {
  import opened Types
  import opened Builtins
  import opened Simulation

  /** The state invariant every reachable state satisfies. The armed flag is
      set exactly outside STANDBY and ABORTED (so a landed rocket is still
      armed), and LIFTOFF is never observable between two actions. */
  predicate Valid(s: RocketState) {
    && 1 <= |s.telemetry| <= MAX_TELEMETRY_POINTS
    && |s.logs| <= MAX_LOGS
    && (s.armed <==> !(s.status == Standby || s.status == Aborted))
    && s.status != Liftoff
  }

  // ---- user actions ----

  lemma ArmGuard(s: RocketState, e: Env)
    ensures s.status != Standby ==> Reduce(s, Arm, e) == s
    ensures s.status == Standby ==>
      var r := Reduce(s, Arm, e);
      && r.armed && r.status == Armed
      && Prepended(s.logs, r.logs, ARM_MESSAGE, Info, e.clock)
      && r.flightTime == s.flightTime && r.telemetry == s.telemetry && r.alert == s.alert
  {
  }

  /** Arming twice is arming once: the second ARM finds ARMED and does nothing. */
  lemma ArmIdempotent(s: RocketState, e: Env, e': Env)
    ensures Reduce(Reduce(s, Arm, e), Arm, e') == Reduce(s, Arm, e)
  {
  }

  lemma DisarmEffect(s: RocketState, e: Env)
    ensures var r := Reduce(s, Disarm, e);
      && !r.armed && r.status == Standby
      && Prepended(s.logs, r.logs, DISARM_MESSAGE, Info, e.clock)
      && r.flightTime == s.flightTime && r.telemetry == s.telemetry && r.alert == s.alert
  {
  }

  lemma LaunchGuard(s: RocketState, e: Env)
    ensures !s.armed ==> Reduce(s, Launch, e) == s
    ensures s.armed ==>
      var r := Reduce(s, Launch, e);
      && r.status == Countdown && r.flightTime == -10.0
      && Prepended(s.logs, r.logs, LAUNCH_MESSAGE, Warning, e.clock)
      && r.armed && r.telemetry == s.telemetry && r.alert == s.alert
  {
  }

  lemma AbortEffect(s: RocketState, e: Env)
    ensures var r := Reduce(s, Abort, e);
      && r.status == Aborted && !r.armed && r.flightTime == 0.0
      && r.telemetry == [GROUND_POINT]
      && Prepended(s.logs, r.logs, ABORT_MESSAGE, Error, e.clock)
      && r.alert == Some(Alert("Launch Aborted!", Error))
  {
  }

  lemma ResetEffect(s: RocketState, e: Env)
    ensures var r := Reduce(s, Reset, e);
      && r == INITIAL_STATE && Valid(r)
      && r.status == Standby && !r.armed && r.flightTime == 0.0
      && r.telemetry == [TelemetryPoint(0.0, 0.0, 0.0, 0.0, 0.0, 34.0522, -118.2437)]
      && r.logs == [] && r.alert == None
  {
  }

  /** SET_ALERT changes only the alert, and setting the old alert back undoes it. */
  lemma SetAlertEffect(s: RocketState, x: Option<Alert>, e: Env, e': Env)
    ensures Reduce(s, SetAlert(x), e) == s.(alert := x)
    ensures Reduce(Reduce(s, SetAlert(x), e), SetAlert(s.alert), e') == s
  {
  }

  // ---- the tick ----

  /** In STANDBY, ARMED, LANDED and ABORTED a tick only advances the clock. */
  lemma TickPassive(s: RocketState, dt: real, e: Env)
    requires s.telemetry != [] && IsPassive(s.status)
    ensures Tick(s, dt, e) == s.(flightTime := s.flightTime + dt)
  {
  }

  /** A countdown tick that does not reach zero: only the clock and possibly
      one "T-N..." entry change; the entry appears exactly when the ceiling of
      the flight time goes up, with N the whole seconds left. */
  lemma TickCountdownHold(s: RocketState, dt: real, e: Env)
    requires s.telemetry != [] && s.status == Countdown && s.flightTime + dt < 0.0
    ensures var r := Tick(s, dt, e);
      && r.status == Countdown && r.flightTime == s.flightTime + dt
      && r.armed == s.armed && r.telemetry == s.telemetry && r.alert == s.alert
      && (Ceil(s.flightTime) < Ceil(s.flightTime + dt) ==>
            Prepended(s.logs, r.logs, "T-" + NatToString(-Ceil(s.flightTime + dt)) + "...", Info, e.clock))
      && (Ceil(s.flightTime) >= Ceil(s.flightTime + dt) ==> r.logs == s.logs)
  {
  }

  /** The tick on which the countdown reaches zero: "Liftoff!" is logged, the
      clock restarts at 0 and the same tick already runs the first burn step,
      so the phase the tick leaves behind is IN_FLIGHT. */
  lemma TickLiftoff(s: RocketState, dt: real, e: Env)
    requires s.telemetry != [] && s.status == Countdown && s.flightTime + dt >= 0.0
    ensures var r := Tick(s, dt, e);
      && r.status == InFlight && r.flightTime == 0.0
      && Prepended(s.logs, r.logs, LIFTOFF_MESSAGE, Info, e.clock)
      && r.armed == s.armed && r.alert == s.alert
      && r.telemetry == AppendPoint(s.telemetry, Last(r.telemetry))
      && var p := Last(r.telemetry);
         var q := Last(s.telemetry);
         && p == BurnSample(0.0, q, dt, e)
         && p.time == q.time + dt
         && p.thrust == 7000.0 + e.random * 100.0
         && 7000.0 <= p.thrust < 7100.0
         && p.acceleration == p.thrust / 150.0 - 9.81
         && p.speed == MaxReal(0.0, q.speed + q.acceleration * dt)
         && p.altitude == MaxReal(0.0, q.altitude + q.speed * dt)
  {
    var t := s.(status := Liftoff, logs := AddLog(s.logs, LIFTOFF_MESSAGE, Info, e.clock), flightTime := 0.0);
    assert Tick(s, dt, e) == Kinematics(t, dt, e);
    var p := BurnSample(0.0, Last(s.telemetry), dt, e);
    KinematicsOfBurn(t, dt, e);
    BurnSampleFacts(0.0, Last(s.telemetry), dt, e);
    assert BurnPhase(t, p, e) == t.(status := InFlight);
  }

  /** The burn sample on its own: thrust and acceleration by the ramp or by
      free fall, and the clamped speed and altitude. */
  lemma BurnSampleFacts(ft: real, last: TelemetryPoint, dt: real, e: Env)
    ensures var p := BurnSample(ft, last, dt, e);
      && p.time == last.time + dt
      && p.speed == MaxReal(0.0, last.speed + last.acceleration * dt)
      && p.altitude == MaxReal(0.0, last.altitude + last.speed * dt)
      && p.latitude == last.latitude + (p.speed / 500000.0) * e.sin(ft)
      && p.longitude == last.longitude + (p.speed / 500000.0) * e.cos(ft)
      && (ft <= 8.0 ==>
            && p.thrust == 7000.0 * (1.0 - ft / 8.0) + e.random * 100.0
            && 7000.0 * (1.0 - ft / 8.0) <= p.thrust < 7000.0 * (1.0 - ft / 8.0) + 100.0
            && p.acceleration == p.thrust / 150.0 - 9.81)
      && (ft > 8.0 ==> p.thrust == 0.0 && p.acceleration == -9.81)
  {
  }

  /** The coast sample on its own: gravity only, unclamped speed, the
      clamped altitude, and GPS drift from that speed along the flight-time
      angle (computed before a touchdown zeroes the sample). */
  lemma CoastSampleFacts(st: RocketState, last: TelemetryPoint, dt: real, e: Env)
    ensures var (next, p) := CoastStep(st, last, dt, e);
      var speed := last.speed - 9.81 * dt;
      var altitude := MaxReal(0.0, last.altitude + last.speed * dt);
      && p.time == last.time + dt && p.thrust == 0.0
      && p.latitude == last.latitude + (speed / 500000.0) * e.sin(st.flightTime)
      && p.longitude == last.longitude + (speed / 500000.0) * e.cos(st.flightTime)
      && (altitude > 0.0 ==>
            && next == st
            && p.speed == speed && p.altitude == altitude && p.acceleration == -9.81)
  {
  }

  /** The burn transition on its own: only status and logs change, and the
      phase stays active. */
  lemma BurnPhaseFacts(st: RocketState, p: TelemetryPoint, e: Env)
    ensures var next := BurnPhase(st, p, e);
      var ft := st.flightTime;
      && next.flightTime == ft && next.armed == st.armed && next.alert == st.alert
      && next.telemetry == st.telemetry && !IsPassive(next.status)
      && (ft <= 8.0 ==> next.status == InFlight && next.logs == st.logs)
      && (ft > 8.0 ==>
            && (next.status == Descent <==> p.speed < 1.0 && p.altitude > 100.0)
            && (next.status == Descent ==> Prepended(st.logs, next.logs, ApogeeMessage(p.altitude), Info, e.clock))
            && (next.status != Descent ==> next.status == Apogee && next.logs == st.logs))
  {
  }

  /** What a burn-phase tick from `s` produces as `r`: the new sample is the
      burn sample at the advanced clock, appended once; thrust follows the
      linear ramp plus jitter while the clock is within 8 s (the boundary is
      inclusive) and drops to 0 with free fall past 8 s; speed and altitude
      never go negative; the phase edge and its log entry. */
  predicate BurnTick(s: RocketState, dt: real, e: Env, r: RocketState)
    requires s.telemetry != []
  {
    var ft := s.flightTime + dt;
    && r.flightTime == ft && r.armed == s.armed && r.alert == s.alert
    && r.telemetry != [] && r.telemetry == AppendPoint(s.telemetry, Last(r.telemetry))
    && var p := Last(r.telemetry);
       var q := Last(s.telemetry);
       && p == BurnSample(ft, q, dt, e)
       && p.time == q.time + dt
       && p.speed >= 0.0 && p.altitude >= 0.0
       && p.speed == MaxReal(0.0, q.speed + q.acceleration * dt)
       && p.altitude == MaxReal(0.0, q.altitude + q.speed * dt)
       && (ft <= 8.0 ==>
             && r.status == InFlight && r.logs == s.logs
             && 7000.0 * (1.0 - ft / 8.0) <= p.thrust < 7000.0 * (1.0 - ft / 8.0) + 100.0
             && p.acceleration == p.thrust / 150.0 - 9.81)
       && (ft > 8.0 ==>
             && p.thrust == 0.0 && p.acceleration == -9.81
             && (r.status == Descent <==> p.speed < 1.0 && p.altitude > 100.0)
             && (r.status == Descent ==> Prepended(s.logs, r.logs, ApogeeMessage(p.altitude), Info, e.clock))
             && (r.status != Descent ==> r.status == Apogee && r.logs == s.logs))
  }

  /** The burn transition followed by recording the burn sample has the
      outcome a burn-phase tick promises. */
  lemma BurnTickOutcome(s: RocketState, dt: real, e: Env, r: RocketState)
    requires s.telemetry != []
    requires var t := s.(flightTime := s.flightTime + dt);
      var p := BurnSample(t.flightTime, Last(s.telemetry), dt, e);
      r == BurnPhase(t, p, e).(telemetry := AppendPoint(s.telemetry, p))
    ensures BurnTick(s, dt, e, r)
  {
    var t := s.(flightTime := s.flightTime + dt);
    var q := Last(s.telemetry);
    var p := BurnSample(t.flightTime, q, dt, e);
    BurnSampleFacts(t.flightTime, q, dt, e);
    BurnPhaseFacts(t, p, e);
    assert r.telemetry == AppendPoint(s.telemetry, p);
    assert Last(r.telemetry) == p;
    if t.flightTime <= 8.0 {
      assert r == t.(status := InFlight, telemetry := r.telemetry);
    }
  }

  /** A burn-phase tick (LIFTOFF or IN_FLIGHT) has the outcome BurnTick states. */
  lemma TickBurn(s: RocketState, dt: real, e: Env)
    requires s.telemetry != [] && (s.status == Liftoff || s.status == InFlight)
    requires s.flightTime + dt >= 0.0
    ensures BurnTick(s, dt, e, Tick(s, dt, e))
  {
    var t := s.(flightTime := s.flightTime + dt);
    TickReachesKinematics(s, dt, e);
    KinematicsOfBurn(t, dt, e);
    BurnTickOutcome(s, dt, e, Tick(s, dt, e));
  }

  /** Outside the countdown, a tick that leaves the clock non-negative is
      the kinematic step on the advanced clock. */
  lemma TickReachesKinematics(s: RocketState, dt: real, e: Env)
    requires s.telemetry != [] && s.status != Countdown && s.flightTime + dt >= 0.0
    ensures Tick(s, dt, e) == Kinematics(s.(flightTime := s.flightTime + dt), dt, e)
  {
  }

  lemma KinematicsOfBurn(t: RocketState, dt: real, e: Env)
    requires t.telemetry != [] && (t.status == Liftoff || t.status == InFlight)
    ensures var p := BurnSample(t.flightTime, Last(t.telemetry), dt, e);
      Kinematics(t, dt, e) == BurnPhase(t, p, e).(telemetry := AppendPoint(t.telemetry, p))
  {
    var p := BurnSample(t.flightTime, Last(t.telemetry), dt, e);
    BurnPhaseFacts(t, p, e);
    assert Kinematics(t, dt, e) == Record(BurnPhase(t, p, e), p);
  }

  /** A coast-phase tick: gravity only and unclamped speed while airborne;
      reaching altitude 0 lands the rocket with a WARNING alert, and the
      touchdown sample is not recorded (LANDED records nothing). */
  lemma TickCoast(s: RocketState, dt: real, e: Env)
    requires s.telemetry != [] && (s.status == Apogee || s.status == Descent)
    requires s.flightTime + dt >= 0.0
    ensures var r := Tick(s, dt, e);
      var q := Last(s.telemetry);
      var altitude := MaxReal(0.0, q.altitude + q.speed * dt);
      && r.flightTime == s.flightTime + dt && r.armed == s.armed
      && (altitude <= 0.0 ==>
            && r.status == Landed && r.telemetry == s.telemetry
            && r.alert == Some(Alert("Rocket has landed safely.", Warning))
            && Prepended(s.logs, r.logs, TOUCHDOWN_MESSAGE, Info, e.clock))
      && (altitude > 0.0 ==>
            && r.status == s.status && r.logs == s.logs && r.alert == s.alert
            && r.telemetry == AppendPoint(s.telemetry, Last(r.telemetry))
            && var p := Last(r.telemetry);
               && p == CoastStep(s.(flightTime := s.flightTime + dt), q, dt, e).1
               && p.time == q.time + dt && p.thrust == 0.0 && p.acceleration == -9.81
               && p.speed == q.speed - 9.81 * dt && p.altitude == altitude)
  {
    var t := s.(flightTime := s.flightTime + dt);
    assert Tick(s, dt, e) == Kinematics(t, dt, e);
    var (next, p) := CoastStep(t, Last(s.telemetry), dt, e);
    CoastSampleFacts(t, Last(s.telemetry), dt, e);
    assert Kinematics(t, dt, e) == Record(next, p);
  }

  /** The touchdown sample itself is zeroed (altitude, speed and
      acceleration) before it is dropped. */
  lemma TouchdownSample(st: RocketState, last: TelemetryPoint, dt: real, e: Env)
    requires MaxReal(0.0, last.altitude + last.speed * dt) <= 0.0
    ensures var (next, p) := CoastStep(st, last, dt, e);
      && next.status == Landed && next.alert == Some(Alert("Rocket has landed safely.", Warning))
      && p.altitude == 0.0 && p.speed == 0.0 && p.acceleration == 0.0 && p.thrust == 0.0
      && p.time == last.time + dt
  {
  }

  /** A tick that leaves the clock negative outside the countdown (a
      negative increment) changes nothing but the clock. */
  lemma TickBeforeZero(s: RocketState, dt: real, e: Env)
    requires s.telemetry != [] && s.status != Countdown && s.flightTime + dt < 0.0
    ensures Tick(s, dt, e) == s.(flightTime := s.flightTime + dt)
  {
  }

  /** The phase edges a tick can take, and what it never touches. */
  predicate TickShape(s: RocketState, r: RocketState) {
    && r.armed == s.armed
    && (r.status == s.status
        || (s.status == Countdown && r.status == InFlight)
        || ((s.status == Liftoff || s.status == InFlight) && (r.status == InFlight || r.status == Apogee || r.status == Descent))
        || ((s.status == Apogee || s.status == Descent) && r.status == Landed))
    && (r.telemetry == s.telemetry || (r.telemetry != [] && r.telemetry == AppendPoint(s.telemetry, Last(r.telemetry))))
    && (IsPassive(r.status) ==> r.telemetry == s.telemetry)
    && (r.logs == s.logs || PushedOne(s.logs, r.logs))
  }

  /** Every tick moves along one of the state machine's edges, keeps the
      armed flag, records at most one sample (none in a passive phase) and
      adds at most one log entry. */
  lemma TickTransitions(s: RocketState, dt: real, e: Env)
    requires s.telemetry != []
    ensures TickShape(s, Tick(s, dt, e))
  {
    var ft := s.flightTime + dt;
    if IsPassive(s.status) {
      TickPassive(s, dt, e);
      assert TickShape(s, Tick(s, dt, e));
    } else if s.status == Countdown {
      if ft < 0.0 {
        TickCountdownHold(s, dt, e);
        assert TickShape(s, Tick(s, dt, e));
      } else {
        TickLiftoff(s, dt, e);
        assert TickShape(s, Tick(s, dt, e));
      }
    } else if ft < 0.0 {
      TickBeforeZero(s, dt, e);
      assert TickShape(s, Tick(s, dt, e));
    } else if s.status == Liftoff || s.status == InFlight {
      TickBurn(s, dt, e);
      assert TickShape(s, Tick(s, dt, e));
    } else {
      TickCoast(s, dt, e);
      assert TickShape(s, Tick(s, dt, e));
    }
  }

  // ---- the invariant ----

  lemma InitialValid()
    ensures Valid(INITIAL_STATE)
  {
  }

  lemma {:induction false} ValidPreserved(s: RocketState, a: Action, e: Env)
    requires Valid(s)
    ensures Valid(Reduce(s, a, e))
  {
    if a.UpdateTick? {
      TickTransitions(s, a.dt, e);
    }
  }

  datatype Step = Step(action: Action, env: Env)

  /** The state after dispatching `steps` in order, from a valid state. */
  function Run(s: RocketState, steps: seq<Step>): (r: RocketState)
    requires Valid(s)
    ensures Valid(r)
    decreases |steps|
  {
    if steps == [] then s
    else
      var prev := Run(s, steps[..|steps| - 1]);
      var step := steps[|steps| - 1];
      ValidPreserved(prev, step.action, step.env);
      Reduce(prev, step.action, step.env)
  }

  /** Every state reachable from the initial one satisfies the invariant:
      the buffers stay within their caps and LIFTOFF is never seen. */
  lemma ReachableValid(steps: seq<Step>)
    ensures var r := Run(INITIAL_STATE, steps);
      && Valid(r) && r.status != Liftoff && (r.status == Landed ==> r.armed)
  {
    InitialValid();
  }

  // ---- the timer ----

  /** The timer's increment: 100 ms. */
  const TICK_SECONDS: real := 0.1

  /** The state after one timer tick per environment in `envs`. */
  function Ticks(s: RocketState, envs: seq<Env>): (r: RocketState)
    requires Valid(s)
    ensures Valid(r)
    decreases |envs|
  {
    if envs == [] then s
    else
      var prev := Ticks(s, envs[..|envs| - 1]);
      ValidPreserved(prev, UpdateTick(TICK_SECONDS), envs[|envs| - 1]);
      Reduce(prev, UpdateTick(TICK_SECONDS), envs[|envs| - 1])
  }

  /** While the clock stays below zero, timer ticks keep counting down and
      leave telemetry, alert and armed flag alone. */
  lemma {:induction false} CountingDown(s: RocketState, envs: seq<Env>)
    requires Valid(s) && s.status == Countdown
    requires s.flightTime + |envs| as real * TICK_SECONDS < 0.0
    ensures var r := Ticks(s, envs);
      && r.status == Countdown && r.flightTime == s.flightTime + |envs| as real * TICK_SECONDS
      && r.telemetry == s.telemetry && r.alert == s.alert && r.armed == s.armed
    decreases |envs|
  {
    if envs != [] {
      var init := envs[..|envs| - 1];
      CountingDown(s, init);
      TickCountdownHold(Ticks(s, init), TICK_SECONDS, envs[|envs| - 1]);
    }
  }

  /** From the launch command's T-10, in exact arithmetic the countdown
      lasts exactly 100 timer ticks: after 99 it is still counting (at
      T-0.1), and the 100th lifts off (the tick leaves IN_FLIGHT with the
      clock at 0 and one sample added). */
  lemma TenSecondCountdown(s: RocketState, envs: seq<Env>)
    requires Valid(s) && s.status == Countdown && s.flightTime == -10.0
    requires |envs| == 100
    ensures var before := Ticks(s, envs[..99]);
      && before.status == Countdown && before.flightTime == -0.1
      && before.telemetry == s.telemetry
    ensures var r := Ticks(s, envs);
      && r.status == InFlight && r.flightTime == 0.0
      && |r.telemetry| == MinNat(|s.telemetry| + 1, MAX_TELEMETRY_POINTS)
  {
    CountingDown(s, envs[..99]);
    var before := Ticks(s, envs[..99]);
    assert envs[..|envs| - 1] == envs[..99];
    TickLiftoff(before, TICK_SECONDS, envs[99]);
  }

}
