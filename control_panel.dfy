/** The control panel's guards: which buttons it shows in which phase,
    which of them are enabled, and the reducer actions they dispatch. */
module ControlPanel {
  import opened Types
  import opened Simulation
  import opened SimulationLemmas

  /** The props the panel receives; the audio flags come from the audio hook. */
  datatype PanelProps = PanelProps(status: FlightStatus, armed: bool, audioPrepping: bool, audioReady: bool)

  predicate IsMissionOver(status: FlightStatus) {
    status == Landed || status == Aborted
  }

  predicate IsLaunchReady(p: PanelProps) {
    p.armed && p.status == Armed && p.audioReady
  }

  function ArmButtonText(p: PanelProps): string {
    if p.armed then "Disarm System" else if p.audioPrepping then "Prepping Audio..." else "Arm System"
  }

  predicate IsArmDisabled(p: PanelProps) {
    !(p.status == Standby || p.status == Armed) || p.audioPrepping
  }

  datatype Button = Button(text: string, disabled: bool)

  /** What the panel renders: the mission-end screen, or the three controls. */
  datatype Panel =
    | MissionEnd(restart: Button, download: Button)
    | MissionControl(arm: Button, launch: Button, abort: Button)

  function Render(p: PanelProps): (view: Panel)
    ensures view.MissionEnd? <==> IsMissionOver(p.status)
    ensures view.MissionEnd? ==> !view.restart.disabled && !view.download.disabled
    ensures view.MissionControl? ==>
      && !view.abort.disabled
      && (view.launch.disabled <==> !(p.armed && p.status == Armed && p.audioReady))
      && (view.arm.disabled <==> !(p.status == Standby || p.status == Armed) || p.audioPrepping)
  {
    if IsMissionOver(p.status) then
      MissionEnd(Button("Restart Mission", false), Button("Download Flight Data", false))
    else
      MissionControl(
        Button(ArmButtonText(p), IsArmDisabled(p)),
        Button("Launch", !IsLaunchReady(p)),
        Button("Abort", false))
  }

  /** In LANDED or ABORTED, ticks, alerts, ARM and ABORT keep the mission
      over; RESET and DISARM leave it for STANDBY, and LAUNCH restarts the
      countdown exactly from LANDED (the rocket is still armed there). */
  lemma TerminalPhases(s: RocketState, a: Action, e: Env)
    requires Valid(s) && IsMissionOver(s.status)
    ensures var r := Reduce(s, a, e);
      && (a.UpdateTick? || a.SetAlert? || a.Arm? ==> r.status == s.status)
      && (a.Abort? ==> r.status == Aborted)
      && (a.Reset? || a.Disarm? ==> r.status == Standby)
      && (a.Launch? ==> (r.status == Countdown <==> s.status == Landed))
  {
    if a.UpdateTick? {
      TickPassive(s, a.dt, e);
    }
  }

  /** The arm button's label: "Disarm System" whenever armed, otherwise
      "Prepping Audio..." while audio is prepping, otherwise "Arm System". */
  lemma ArmButtonLabel(p: PanelProps)
    ensures ArmButtonText(p) == "Disarm System" <==> p.armed
    ensures ArmButtonText(p) == "Prepping Audio..." <==> !p.armed && p.audioPrepping
    ensures ArmButtonText(p) == "Arm System" <==> !p.armed && !p.audioPrepping
  {
  }

  /** The reducer actions the rendered panel lets the operator dispatch: the
      arm button dispatches DISARM when armed and ARM (after confirmation)
      otherwise; launch dispatches LAUNCH (after confirmation); abort
      ABORT; restart RESET. Downloading dispatches nothing. */
  function Dispatchable(p: PanelProps): set<Action> {
    match Render(p)
    case MissionEnd(_, _) => {Reset}
    case MissionControl(arm, launch, abort) =>
      (if arm.disabled then {} else if p.armed then {Disarm} else {Arm})
      + (if launch.disabled then {} else {Launch})
      + (if abort.disabled then {} else {Abort})
  }

  /** Once the mission is over only Restart (and download) is offered;
      before that, Abort always is, and Launch exactly when armed in ARMED
      with audio ready. */
  lemma OfferedActions(p: PanelProps)
    ensures IsMissionOver(p.status) ==> Dispatchable(p) == {Reset}
    ensures !IsMissionOver(p.status) ==> Abort in Dispatchable(p) && Reset !in Dispatchable(p)
    ensures Launch in Dispatchable(p) <==> !IsMissionOver(p.status) && p.armed && p.status == Armed && p.audioReady
    ensures Arm in Dispatchable(p) <==> (p.status == Standby || p.status == Armed) && !p.armed && !p.audioPrepping
    ensures Disarm in Dispatchable(p) <==> (p.status == Standby || p.status == Armed) && p.armed && !p.audioPrepping
  {
  }

  function PropsOf(s: RocketState, audioPrepping: bool, audioReady: bool): PanelProps {
    PanelProps(s.status, s.armed, audioPrepping, audioReady)
  }

  /** An action that can reach the reducer in the running app: a panel
      button or the 100 ms timer's tick. Alert updates are allowed too,
      although no component dispatches one. */
  predicate Controlled(s: RocketState, a: Action, audioPrepping: bool, audioReady: bool) {
    || a in Dispatchable(PropsOf(s, audioPrepping, audioReady))
    || (a.UpdateTick? && a.dt >= 0.0)
    || a.SetAlert?
  }

  /** The reducer invariant plus: the clock is negative only during the countdown. */
  predicate PanelValid(s: RocketState) {
    Valid(s) && (s.flightTime < 0.0 ==> s.status == Countdown)
  }

  /** Under panel-driven actions and non-negative ticks, the clock is
      negative only while counting down, and LANDED / ABORTED are left only
      by RESET. */
  lemma {:induction false} PanelValidPreserved(s: RocketState, a: Action, e: Env, audioPrepping: bool, audioReady: bool)
    requires PanelValid(s) && Controlled(s, a, audioPrepping, audioReady)
    ensures PanelValid(Reduce(s, a, e))
    ensures IsMissionOver(s.status) && a != Reset ==> IsMissionOver(Reduce(s, a, e).status)
  {
    ValidPreserved(s, a, e);
    OfferedActions(PropsOf(s, audioPrepping, audioReady));
    if a.UpdateTick? {
      TickTransitions(s, a.dt, e);
      var ft := s.flightTime + a.dt;
      if s.status == Countdown {
        if ft < 0.0 {
          TickCountdownHold(s, a.dt, e);
        } else {
          TickLiftoff(s, a.dt, e);
        }
      } else if IsPassive(s.status) {
        TickPassive(s, a.dt, e);
      } else if s.status == Liftoff || s.status == InFlight {
        TickBurn(s, a.dt, e);
      } else {
        TickCoast(s, a.dt, e);
      }
    }
  }

  /** The bare reducer does not keep those two properties: DISARM during
      the countdown leaves STANDBY with a negative clock, and DISARM after
      landing leaves the finished mission. */
  lemma ReducerAloneBreaksThem(e: Env)
    ensures var counting := RocketState(Countdown, true, -5.0, [GROUND_POINT], [], None);
      var r := Reduce(counting, Disarm, e);
      && PanelValid(counting) && r.status == Standby && r.flightTime < 0.0 && !PanelValid(r)
    ensures var landed := RocketState(Landed, true, 30.0, [GROUND_POINT], [], None);
      && PanelValid(landed) && Reduce(landed, Disarm, e).status == Standby
      && Reduce(landed, Launch, e).status == Countdown
  {
  }

  /** A session driven by the panel and the timer from the initial state:
      each step's action is controlled for the state it meets. */
  predicate ControlledRun(s: RocketState, steps: seq<Step>, audioPrepping: bool, audioReady: bool)
    requires Valid(s)
    decreases |steps|
  {
    steps != [] ==>
      && ControlledRun(s, steps[..|steps| - 1], audioPrepping, audioReady)
      && Controlled(Run(s, steps[..|steps| - 1]), steps[|steps| - 1].action, audioPrepping, audioReady)
  }

  lemma {:induction false} ControlledRunValid(s: RocketState, steps: seq<Step>, audioPrepping: bool, audioReady: bool)
    requires PanelValid(s) && ControlledRun(s, steps, audioPrepping, audioReady)
    ensures PanelValid(Run(s, steps))
    decreases |steps|
  {
    if steps != [] {
      var init := steps[..|steps| - 1];
      var last := steps[|steps| - 1];
      ControlledRunValid(s, init, audioPrepping, audioReady);
      PanelValidPreserved(Run(s, init), last.action, last.env, audioPrepping, audioReady);
    }
  }

  /** Every state a panel-driven session reaches from start-up has a
      negative clock only during the countdown. */
  lemma SessionClock(steps: seq<Step>, audioPrepping: bool, audioReady: bool)
    requires ControlledRun(INITIAL_STATE, steps, audioPrepping, audioReady)
    ensures PanelValid(Run(INITIAL_STATE, steps))
  {
    ControlledRunValid(INITIAL_STATE, steps, audioPrepping, audioReady);
  }
}
