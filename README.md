# KLU R1 launch control, modelled in Dafny

KLU R1 Studio is a browser dashboard that simulates a small rocket. The
simulation is a reducer. It maps the current `RocketState` and an
`Action` to the next state, and drives a state machine over nine flight
phases:

- STANDBY, ARMED and COUNTDOWN before launch;
- LIFTOFF and IN_FLIGHT while the motor burns;
- APOGEE and DESCENT while coasting;
- LANDED and ABORTED at the end.

It keeps two bounded buffers. The log holds the 50 newest entries, newest
first. The telemetry holds the 100 most recent samples, oldest first. A
100 ms timer feeds it `UPDATE_TICK(0.1)`. The header turns the flight
time into a mission clock and picks a colour for the status. The control
panel decides which buttons are offered and enabled in each phase.

The project has six modules:

- `Types` (`types.dfy`): the data model of `types.ts`. The datatypes are
  `FlightStatus`, `TelemetryPoint`, `Severity`, `LogEntry`, `Alert` and
  `RocketState`, plus the seven-kind `Action`. An alert's severity is the
  subset type `AlertSeverity`, which excludes INFO.
- `Builtins` (`builtins.dfy`): the JavaScript built-ins the core uses, over
  exact reals and unbounded integers. These are `Math.ceil`, truncation
  (the `%` operator), `String(n)`, `padStart` and `toFixed(0)`.
- `Simulation` (`simulation.dfy`): `initialState`, the buffer caps,
  `addLog`, the telemetry append, and the reducer with all seven actions.
  The reducer is `Simulation.Reduce`; the tick is `Simulation.Tick`.
- `SimulationLemmas` (`simulation_lemmas.dfy`), which proves:
  - the guard and frame of each action and the phase rules of a tick;
  - a state invariant that every reachable state keeps;
  - the ten-second countdown under the 100 ms timer.
- `Header` (`header.dfy`): `formatTime`, with a parser that reads its text
  back; the status colour rule; the armed indicator.
- `ControlPanel` (`control_panel.dfy`): the panel's guards and the buttons
  it renders. It also defines the actions the running app can dispatch,
  and proves what holds under those actions alone.

The reducer is pure in the source: it copies the state, then assigns the
copy's fields step by step. The model writes the same steps as a chain of
functions over intermediate values: `CountdownStep`, `BurnSample`,
`BurnPhase`, `CoastStep`, `Record`, `Kinematics` and `Tick`.

Four things from outside the reducer reach it through an `Env` parameter:

- the clock text of `toLocaleTimeString()`;
- one draw of `Math.random()`, typed as a real in [0, 1);
- `Math.sin`;
- `Math.cos`.

The audio hook's two flags are parameters of the panel.

## What the code does, where a description of it might differ

The model follows the code in these places:

- **LIFTOFF is never observable.** The countdown's final tick sets
  LIFTOFF. The same tick then falls into the burn branch, which sets
  IN_FLIGHT. A state between two actions is therefore never in LIFTOFF
  (`SimulationLemmas.Valid`, `SimulationLemmas.TickLiftoff`,
  `SimulationLemmas.TenSecondCountdown`).
- **A landed rocket is still armed.** Landing does not clear `armed`. The
  invariant is: armed exactly outside STANDBY and ABORTED.
- **LANDED is terminal only under the panel.** The bare reducer leaves
  LANDED or ABORTED on DISARM, and leaves LANDED on LAUNCH. The panel does
  not offer either action in those phases. So in a session driven by the
  panel, RESET is the only way out (`ControlPanel.TerminalPhases`,
  `ControlPanel.ReducerAloneBreaksThem`, `ControlPanel.PanelValidPreserved`).
- **The countdown logs T-9 down to T-0.** The "T-N..." entry uses
  N = |ceil(flightTime)| after the tick, not ceil(|flightTime|).
- **The touchdown sample is dropped.** On landing, the zeroed sample is
  built but not recorded, because LANDED records no telemetry.
- **DESCENT comes only from the burn branch.** A burn-branch tick past
  8 s moves to DESCENT when the new sample is already slow (speed < 1) and
  high (altitude > 100). In every other case it moves to APOGEE, and the
  coast branch never moves from APOGEE to DESCENT.
- **DISARM during the countdown.** It leaves STANDBY with a negative clock.
  The panel disables the arm button in COUNTDOWN, so this cannot happen
  from the UI.

## Model

| member | source | states |
|---|---|---|
| Types.StatusesClosed | types.ts:2-12 | the phase enumeration has exactly nine members, each listed once, and their string values are pairwise distinct |
| Types.StatusName | types.ts:3-11 | no contract of its own; the distinctness of the nine string values is stated by Types.StatusesClosed |
| Builtins.Ceil | components/Header.tsx:13 | `Math.ceil`: the least integer not below x |
| Builtins.Abs | components/Header.tsx:13 | `Math.abs` on an integer: the result is n or -n and is never negative |
| Builtins.MaxReal | hooks/useRocketData.ts:99-100 | `Math.max` of two numbers: not below either, and equal to one of them |
| Builtins.Trunc | components/Header.tsx:16 | rounding toward zero, which JavaScript's `%` uses: the floor for x >= 0 and the ceiling below zero |
| Builtins.JsRem | components/Header.tsx:16 | no contract of its own; its use in the clock is described by Header.FlightClockFields (the seconds field lies in [0, 59]) |
| Builtins.NatToString | components/Header.tsx:13 | `String(n)` for a non-negative integer: at least one character, all decimal digits; its shortest form and value are stated by Builtins.NatToStringLength and Builtins.DecimalRoundTrip |
| Builtins.PadStart | components/Header.tsx:13 | no contract of its own; described by Builtins.PadStartShape |
| Builtins.ToFixed0 | hooks/useRocketData.ts:107 | no contract of its own; described by Builtins.ToFixed0Nearest (non-negative numbers) and Builtins.ToFixed0Negative (the sign case) |
| Builtins.NatToStringLength | components/Header.tsx:13 | `String(n)` is the shortest decimal text: k digits exactly when 10^(k-1) <= n < 10^k, and "0" for zero |
| Builtins.DecimalRoundTrip | components/Header.tsx:17 | the digits of `String(n)` read back as n |
| Builtins.PadStartShape | components/Header.tsx:17 | `padStart` reaches the width (or keeps a longer text whole), keeps the text as its suffix and fills the front with the fill character |
| Builtins.Pad2Value | components/Header.tsx:17 | two-digit padding reads back as the same number, is exactly two characters below 100, and is the plain decimal text (three or more digits) from 100 on |
| Builtins.Pad2 | components/Header.tsx:17 | no contract of its own; described by Builtins.Pad2Value |
| Builtins.ToFixed0Nearest | hooks/useRocketData.ts:107 | `toFixed(0)` of a non-negative number prints the digits of an integer within half a unit of it, ties going up |
| Builtins.ToFixed0Negative | hooks/useRocketData.ts:107 | a negative number prints as "-" and then the rounding of its magnitude, so a magnitude below one half prints "-0" |
| Simulation.AddLog | hooks/useRocketData.ts:16-23 | the result is the old logs with the new entry prepended (Simulation.Prepended): the entry at index 0, the old entries in order after it, and length min(old + 1, 50) |
| Simulation.AppendPoint | hooks/useRocketData.ts:136-138 | the new sample is last, the entries before it are the newest of the old ones in order, and the length is min(old + 1, 100) |
| Simulation.BurnThrust | hooks/useRocketData.ts:95 | no contract of its own; described by SimulationLemmas.BurnSampleFacts (7000·(1 - t/8) + 100·random) |
| Simulation.IsPassive | hooks/useRocketData.ts:136 | no contract of its own; the four phases that record no sample, described by SimulationLemmas.TickPassive and TickShape |
| Simulation.CountdownMessage | hooks/useRocketData.ts:74 | no contract of its own; the "T-N..." text, described by SimulationLemmas.TickCountdownHold |
| Simulation.ApogeeMessage | hooks/useRocketData.ts:107 | no contract of its own; the "Apogee reached at Nm." text, described by SimulationLemmas.BurnPhaseFacts and Builtins.ToFixed0Nearest |
| Simulation.INITIAL_STATE | hooks/useRocketData.ts:5-12 | the initial state (STANDBY, unarmed, clock 0, one ground sample at 34.0522, -118.2437, no logs, no alert); its invariant is stated by SimulationLemmas.InitialValid |
| Simulation.Reduce | hooks/useRocketData.ts:25-149 | no contract of its own; each action is described by SimulationLemmas.ArmGuard, DisarmEffect, LaunchGuard, AbortEffect, ResetEffect, SetAlertEffect and the tick lemmas, and the invariant by SimulationLemmas.ValidPreserved |
| Simulation.Tick | hooks/useRocketData.ts:61-140 | no contract of its own; described by SimulationLemmas.TickPassive, TickCountdownHold, TickLiftoff, TickBeforeZero, TickBurn, TickCoast and TickTransitions |
| Simulation.CountdownStep | hooks/useRocketData.ts:71-76 | no contract of its own; described by SimulationLemmas.TickCountdownHold |
| Simulation.BurnSample | hooks/useRocketData.ts:86-104 | no contract of its own; described by SimulationLemmas.BurnSampleFacts |
| Simulation.BurnPhase | hooks/useRocketData.ts:89-110 | no contract of its own; described by SimulationLemmas.BurnPhaseFacts |
| Simulation.CoastStep | hooks/useRocketData.ts:113-132 | no contract of its own; described by SimulationLemmas.CoastSampleFacts, TouchdownSample and TickCoast |
| Simulation.Kinematics | hooks/useRocketData.ts:82-138 | no contract of its own; described by SimulationLemmas.TickBurn and TickCoast |
| Simulation.Record | hooks/useRocketData.ts:136-138 | no contract of its own; described by SimulationLemmas.TickTransitions (no sample in a passive phase) |
| SimulationLemmas.ArmGuard | hooks/useRocketData.ts:27-36 | ARM outside STANDBY returns the state unchanged; from STANDBY it sets armed and ARMED, prepends one INFO entry, and keeps clock, telemetry and alert |
| SimulationLemmas.ArmIdempotent | hooks/useRocketData.ts:27-36 | a second ARM changes nothing |
| SimulationLemmas.DisarmEffect | hooks/useRocketData.ts:37-43 | DISARM in any phase clears armed, sets STANDBY, prepends one INFO entry, and keeps clock, telemetry and alert |
| SimulationLemmas.LaunchGuard | hooks/useRocketData.ts:44-53 | LAUNCH is a no-op when unarmed; when armed it sets COUNTDOWN and clock -10, prepends one WARNING entry, and keeps armed, telemetry and alert |
| SimulationLemmas.AbortEffect | hooks/useRocketData.ts:54-60 | ABORT gives the initial state's armed flag, clock and telemetry, status ABORTED, the old logs with one ERROR entry prepended, and the ERROR alert "Launch Aborted!" |
| SimulationLemmas.ResetEffect | hooks/useRocketData.ts:144-145 | RESET gives exactly the initial state: STANDBY, unarmed, clock 0, the single ground sample, no logs, no alert |
| SimulationLemmas.SetAlertEffect | hooks/useRocketData.ts:142-143 | SET_ALERT changes only the alert, and setting the old alert back restores the state |
| SimulationLemmas.TickPassive | hooks/useRocketData.ts:61-140 | in STANDBY, ARMED, LANDED and ABORTED a tick changes only the clock |
| SimulationLemmas.TickCountdownHold | hooks/useRocketData.ts:66-77 | a countdown tick that stays below zero keeps telemetry, alert and armed, and adds the "T-N..." entry (N the whole seconds left) exactly when the ceiling of the clock goes up |
| SimulationLemmas.TickLiftoff | hooks/useRocketData.ts:66-111 | the tick that reaches zero logs "Liftoff!", restarts the clock at 0 and runs the first burn step in the same tick, leaving IN_FLIGHT with the burn sample at clock 0 appended: thrust 7000 + 100·random, acceleration thrust/150 - 9.81, and the clamped speed and altitude |
| SimulationLemmas.BurnSampleFacts | hooks/useRocketData.ts:86-104 | the burn sample: while the clock is at most 8 s, thrust 7000·(1 - t/8) + 100·random and acceleration thrust/150 - 9.81; past 8 s, thrust 0 and acceleration -9.81; speed and altitude clamped at 0; latitude and longitude drift by speed/500000 times the sine and cosine of the clock |
| SimulationLemmas.BurnPhaseFacts | hooks/useRocketData.ts:89-110 | the burn transition: IN_FLIGHT up to 8 s; past 8 s, DESCENT with an "Apogee reached" entry exactly when the sample is slow and high, otherwise APOGEE |
| SimulationLemmas.TickBurn | hooks/useRocketData.ts:86-138 | a burn-phase tick appends exactly one sample, which is the burn sample at the advanced clock (so BurnSampleFacts gives its thrust, speed, altitude and drift), and takes the phase edge to IN_FLIGHT, APOGEE or DESCENT with its log entry (predicate SimulationLemmas.BurnTick) |
| SimulationLemmas.BurnTickOutcome | hooks/useRocketData.ts:86-138 | the burn transition followed by recording the burn sample gives the outcome SimulationLemmas.BurnTick describes |
| SimulationLemmas.TickCoast | hooks/useRocketData.ts:113-138 | a coast tick applies gravity with unclamped speed; reaching altitude 0 sets LANDED, logs touchdown, sets the WARNING alert and records no sample; otherwise the phase stays and the coast sample (CoastSampleFacts: gravity, unclamped speed, drift) is appended |
| SimulationLemmas.CoastSampleFacts | hooks/useRocketData.ts:113-131 | the coast sample: thrust 0, and latitude and longitude drifted by (last speed - 9.81·dt)/500000 times the sine and cosine of the clock; while airborne, speed last speed - 9.81·dt unclamped, the clamped altitude, acceleration -9.81 and the state unchanged (on touchdown see TouchdownSample) |
| SimulationLemmas.TouchdownSample | hooks/useRocketData.ts:124-131 | the touchdown sample has zero altitude, speed, acceleration and thrust |
| SimulationLemmas.TickBeforeZero | hooks/useRocketData.ts:80 | outside the countdown, a tick that leaves the clock negative changes only the clock |
| SimulationLemmas.TickTransitions | hooks/useRocketData.ts:61-140 | every tick follows one of the phase machine's edges, keeps armed, appends at most one sample (none in a passive phase), and either keeps the logs or prepends one entry with the old ones kept in order after it |
| SimulationLemmas.InitialValid | hooks/useRocketData.ts:5-12 | the initial state satisfies the invariant |
| SimulationLemmas.ValidPreserved | hooks/useRocketData.ts:25-149 | every action preserves these facts: 1 to 100 samples, at most 50 entries, armed exactly outside STANDBY and ABORTED, never LIFTOFF |
| SimulationLemmas.Run | hooks/useRocketData.ts:25-149 | any sequence of actions from a valid state keeps the logs within 50 and the telemetry within 1 to 100 |
| SimulationLemmas.ReachableValid | hooks/useRocketData.ts:25-149 | every state reachable from the initial one satisfies the invariant, is never in LIFTOFF, and is armed when LANDED |
| SimulationLemmas.Ticks | hooks/useRocketData.ts:154-158 | any number of 100 ms timer ticks keeps the invariant |
| SimulationLemmas.CountingDown | hooks/useRocketData.ts:71-77 | timer ticks that keep the clock below zero stay in COUNTDOWN, advance the clock by 0.1 each, and keep telemetry, alert and armed |
| SimulationLemmas.TenSecondCountdown | hooks/useRocketData.ts:154-158 | in exact arithmetic, from T-10, 99 timer ticks still count down (clock -0.1, no sample) and the 100th leaves IN_FLIGHT at clock 0 with one sample added |
| ControlPanel.IsMissionOver | components/ControlPanel.tsx:30 | no contract of its own; described by ControlPanel.Render and OfferedActions |
| ControlPanel.IsLaunchReady | components/ControlPanel.tsx:54 | no contract of its own; described by ControlPanel.Render and OfferedActions |
| ControlPanel.ArmButtonText | components/ControlPanel.tsx:55 | no contract of its own; described by ControlPanel.ArmButtonLabel |
| ControlPanel.IsArmDisabled | components/ControlPanel.tsx:56 | no contract of its own; described by ControlPanel.Render and OfferedActions |
| ControlPanel.Render | components/ControlPanel.tsx:29-83 | the mission-end screen appears exactly in LANDED or ABORTED, with both buttons enabled; otherwise Abort is enabled, Launch is enabled exactly when armed in ARMED with audio ready, and Arm is disabled outside STANDBY and ARMED or while audio is prepping |
| ControlPanel.TerminalPhases | hooks/useRocketData.ts:25-149 | in LANDED or ABORTED, ticks, alerts and ARM keep the phase, ABORT gives ABORTED, RESET and DISARM give STANDBY, and LAUNCH restarts the countdown exactly from LANDED |
| ControlPanel.ArmButtonLabel | components/ControlPanel.tsx:55 | the label is "Disarm System" iff armed, "Prepping Audio..." iff unarmed and prepping, otherwise "Arm System" |
| ControlPanel.OfferedActions | components/ControlPanel.tsx:29-83 | once the mission is over only RESET can be dispatched; before that ABORT always can and RESET cannot; LAUNCH exactly when armed in ARMED with audio ready; ARM or DISARM by the armed flag when the arm button is enabled |
| ControlPanel.Dispatchable | App.tsx:21-49 | no contract of its own; the handlers behind the buttons: arm dispatches DISARM when armed and ARM otherwise, launch LAUNCH, abort ABORT, restart RESET; described by ControlPanel.OfferedActions |
| ControlPanel.PanelValidPreserved | App.tsx:21-49 | under panel actions and non-negative ticks, the clock is negative only while counting down, and LANDED or ABORTED is left only by RESET |
| ControlPanel.ReducerAloneBreaksThem | hooks/useRocketData.ts:37-53 | the bare reducer breaks both: DISARM in the countdown leaves STANDBY with a negative clock, and DISARM or LAUNCH leave LANDED |
| ControlPanel.ControlledRunValid | App.tsx:21-49 | a session of panel actions and timer ticks from a state with that invariant keeps it |
| ControlPanel.SessionClock | App.tsx:21-49 | in every state a panel-driven session reaches from start-up, the clock is negative only during the countdown |
| Header.FormatTime | components/Header.tsx:11-18 | no contract of its own; described by Header.FormatTimeRoundTrip, ReadingOfTime, CountdownClock, ClockFields and ClockWidth |
| Header.FormatTimeRoundTrip | components/Header.tsx:11-18 | reading the clock text back gives the flight time truncated toward zero |
| Header.ReadingOfTime | components/Header.tsx:11-17 | before zero the clock shows -ceil(t) seconds to go; from zero on it shows floor(t/60) minutes and floor(t) - 60·floor(t/60) seconds, the seconds lying in [0, 59] |
| Header.ReadingOf | components/Header.tsx:12-16 | no contract of its own; described by Header.ReadingOfTime and FlightClockFields |
| Header.CountdownClock | components/Header.tsx:12-14 | a negative time shows "-00:" and then \|ceil(t)\| zero-padded to two digits; it is six characters whenever t > -100 |
| Header.CountdownExample | components/Header.tsx:12-14 | -9.5 s shows "-00:09" |
| Header.ClockFields | components/Header.tsx:15-17 | a non-negative time's text reads back as floor(t/60) and floor(t mod 60) |
| Header.FlightClockFields | components/Header.tsx:15-16 | the seconds field floor(t % 60) lies in [0, 59] and makes up the truncated time together with 60 times the minutes |
| Header.ClockWidth | components/Header.tsx:17 | below 100 minutes the text is exactly "MM:SS"; from 100 minutes on the minutes field has three or more digits, so padding never truncates |
| Header.ClockTextParse | components/Header.tsx:17 | "MM:SS" reads back as its two numbers |
| Header.CountdownTextParse | components/Header.tsx:13 | "-00:SS" reads back as -SS seconds |
| Header.CountdownText | components/Header.tsx:13 | no contract of its own; "-00:" and the padded seconds, described by Header.CountdownTextParse and CountdownTextShape |
| Header.CountdownTextShape | components/Header.tsx:13 | "-00:" followed by the digits of n, six characters below 100 |
| Header.ClockText | components/Header.tsx:17 | no contract of its own; the padded minutes, ":" and the padded seconds, described by Header.ClockTextParse and ClockTextShape |
| Header.ClockTextShape | components/Header.tsx:17 | exactly "MM:SS" below 100 minutes, and a minutes field of three or more digits from 100 on |
| Header.StatusColor | components/Header.tsx:21-25 | no contract of its own; described by Header.StatusColorPriority and ReachableColor |
| Header.StatusColorPriority | components/Header.tsx:21-25 | red iff ABORTED, whatever the armed flag; green iff IN_FLIGHT or LIFTOFF; yellow iff armed in any other phase; blue otherwise |
| Header.ColorClass | components/Header.tsx:22-25 | no contract of its own; the class strings of each phase are stated by Header.StatusClass |
| Header.StatusClass | components/Header.tsx:21-25 | the class applied is "text-spacex-red" iff ABORTED, "text-green-400" iff IN_FLIGHT or LIFTOFF, "text-yellow-400" iff armed in any other phase, "text-blue-400" otherwise |
| Header.ReachableColor | components/Header.tsx:21-25 | on every state satisfying the reducer's invariant, the colour depends on the phase alone: blue only in STANDBY, green only in IN_FLIGHT, yellow in every other live phase, LANDED included |
| Header.ArmedText | components/Header.tsx:40 | the indicator reads "YES" iff armed and "NO" iff not |

## Left out

- The `useRocketData` hook's `setInterval` timer (hooks/useRocketData.ts:151-164) is React runtime and wall-clock scheduling. It appears only as `SimulationLemmas.Ticks`: each timer step applies `UPDATE_TICK(0.1)`.
- `Math.random()`, `Math.sin`, `Math.cos` and `toLocaleTimeString()` are foreign calls. They are fields of the `Env` parameter, so the model says nothing about their values beyond the range of `Math.random()`.
- Numbers are exact reals, not IEEE-754 doubles. Rounding of the kinematics and of the clock is not modelled.
- SimulationLemmas.TenSecondCountdown holds in exact arithmetic only. In binary64, -10 plus 0.1 added 100 times is about -1.88e-14, still negative, so the 100th tick keeps COUNTDOWN and liftoff comes on the 101st tick, with the clock about 0.09999999999998 before it is reset to 0. The "T-N..." entries and the end of the burn fall on the same ticks in both arithmetics.
- `String(n)` and `toFixed(0)` are modelled for their plain decimal output only. The exponent notation JavaScript uses from 1e21 on, NaN and the infinities are not modelled.
- Simulation.Tick and Simulation.Reduce require a non-empty telemetry buffer only on a tick whose advanced clock is non-negative: only such a tick gets past the early returns and reads the last sample. With an empty buffer the source throws a TypeError there, which the model does not represent. Every reachable state has at least one sample (`SimulationLemmas.ValidPreserved`).
- The reducer's `default` branch is not modelled: `Action` is a closed datatype, so no other action exists.
- Builtins.JsRem has no contract of its own. Its use in the clock is stated by `Header.FlightClockFields`.
- `App.tsx` is modelled only as the actions the panel's buttons dispatch (`ControlPanel.Dispatchable`). The confirmation modals are folded into "the button dispatches its action". The CSV export is DOM and float formatting.
- `lib/audioUtils.ts` (a text-to-speech network call, base64 decoding, audio buffers) is not part of this model. `hooks/useCountdownAudio.ts` is a stub that returns constants; its ready and prepping flags become free parameters of the panel.
- The rendering is not modelled: JSX, CSS classes beyond the status colour (`Header.ColorClass`), the map, the chart, the rocket drawing, the log panel, the status indicator, the alert banner and the confirmation modal.
