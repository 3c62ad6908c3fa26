/** The header's display rules: the mission clock text and the status
    colour. */
module Header {
  import opened Types
  import opened Builtins
  import SimulationLemmas

  /** What the mission clock shows: the whole seconds still to go before
      liftoff, or the whole minutes and seconds since. */
  datatype Reading = ToGo(secondsLeft: nat) | Elapsed(minutes: nat, secs: nat)

  /** The fields the clock computes from the flight time: |ceil(t)| before
      zero, floor(t / 60) and floor(t % 60) from zero on. */
  function ReadingOf(seconds: real): Reading {
    if seconds < 0.0 then ToGo(Abs(Ceil(seconds)))
    else Elapsed((seconds / 60.0).Floor, JsRem(seconds, 60.0).Floor)
  }

  /** "-00:SS" before liftoff, "MM:SS" after. */
  function ReadingText(c: Reading): string {
    match c
    case ToGo(n) => CountdownText(n)
    case Elapsed(m, k) => ClockText(m, k)
  }

  /** The mission clock. */
  function FormatTime(seconds: real): string {
    ReadingText(ReadingOf(seconds))
  }

  /** The signed whole seconds a reading stands for. */
  function ReadingSeconds(c: Reading): int {
    match c
    case ToGo(n) => -(n as int)
    case Elapsed(m, k) => 60 * m + k
  }

  function CountdownText(secondsLeft: nat): string {
    "-00:" + Pad2(secondsLeft)
  }

  function ClockText(minutes: nat, secs: nat): string {
    Pad2(minutes) + ":" + Pad2(secs)
  }

  // ---- reading a clock text back ----

  /** Index of the first ':' in `r`, or |r| if there is none. */
  function ColonIndex(r: string): (i: nat)
    ensures i <= |r|
    ensures i < |r| ==> r[i] == ':'
  {
    if r == [] || r[0] == ':' then 0 else 1 + ColonIndex(r[1..])
  }

  /** The two digit fields of "MM:SS". */
  function ParseFields(r: string): Option<(nat, nat)> {
    var i := ColonIndex(r);
    if i < |r| && AllDigits(r[..i]) && AllDigits(r[i + 1..]) then
      Some((DecimalValue(r[..i]), DecimalValue(r[i + 1..])))
    else None
  }

  /** The whole seconds a clock text shows, negative when it starts with '-'. */
  function ParseTime(r: string): Option<int> {
    var negative := |r| > 0 && r[0] == '-';
    var fields := ParseFields(if negative then r[1..] else r);
    if fields.None? then None
    else
      var total := 60 * fields.value.0 + fields.value.1;
      Some(if negative then -total else total)
  }

  lemma UnsignedTime(r: string, m: nat, k: nat)
    requires |r| > 0 && IsDigit(r[0]) && ParseFields(r) == Some((m, k))
    ensures ParseTime(r) == Some(60 * m + k)
  {
  }

  lemma SignedTime(r: string, m: nat, k: nat)
    requires |r| > 0 && r[0] == '-' && ParseFields(r[1..]) == Some((m, k))
    ensures ParseTime(r) == Some(-(60 * m + k))
  {
  }

  lemma {:induction false} ColonAfterDigits(p: string, q: string)
    requires AllDigits(p)
    ensures ColonIndex(p + ":" + q) == |p|
  {
    if p != [] {
      DigitsSplit(p);
      assert (p + ":" + q)[1..] == p[1..] + ":" + q;
      ColonAfterDigits(p[1..], q);
    }
  }

  lemma {:induction false} FieldsOf(p: string, q: string)
    requires AllDigits(p) && AllDigits(q)
    ensures ParseFields(p + ":" + q) == Some((DecimalValue(p), DecimalValue(q)))
  {
    var r := p + ":" + q;
    ColonAfterDigits(p, q);
    assert r[..|p|] == p;
    assert r[|p| + 1..] == q;
  }

  /** Two digit fields around a colon read back as their values, as whole
      seconds when the text starts with a digit. */
  lemma {:induction false} UnsignedFields(p: string, q: string, m: nat, k: nat)
    requires |p| > 0 && AllDigits(p) && AllDigits(q)
    requires DecimalValue(p) == m && DecimalValue(q) == k
    ensures ParseFields(p + ":" + q) == Some((m, k))
    ensures ParseTime(p + ":" + q) == Some(60 * m + k)
  {
    FieldsOf(p, q);
    var r := p + ":" + q;
    DigitsSplit(p);
    assert r[0] == p[0];
    UnsignedTime(r, m, k);
  }

  /** A minus sign, a zero minutes field and a digit field read back as
      minus that field's value. */
  lemma {:induction false} SignedFields(q: string, k: nat)
    requires AllDigits(q) && DecimalValue(q) == k
    ensures ParseTime("-00:" + q) == Some(-(k as int))
  {
    var z := "00";
    assert AllDigits(z) && DecimalValue(z) == 0 by {
      ZerosValue(2);
      assert Repeat('0', 1) == "0";
      assert Repeat('0', 2) == z;
    }
    FieldsOf(z, q);
    var r := "-00:" + q;
    assert r[1..] == z + ":" + q;
    SignedTime(r, 0, k);
  }

  /** "MM:SS" reads back as its two numbers, and as 60 * MM + SS seconds. */
  lemma {:induction false} ClockTextParse(minutes: nat, secs: nat)
    ensures ParseFields(ClockText(minutes, secs)) == Some((minutes, secs))
    ensures ParseTime(ClockText(minutes, secs)) == Some(60 * minutes + secs)
  {
    Pad2Value(minutes);
    Pad2Value(secs);
    UnsignedFields(Pad2(minutes), Pad2(secs), minutes, secs);
  }

  /** "-00:SS" reads back as -SS seconds. */
  lemma {:induction false} CountdownTextParse(secondsLeft: nat)
    ensures ParseTime(CountdownText(secondsLeft)) == Some(-(secondsLeft as int))
  {
    Pad2Value(secondsLeft);
    SignedFields(Pad2(secondsLeft), secondsLeft);
  }

  /** The countdown reading's text reads back as minus the seconds left. */
  lemma ToGoParse(c: Reading)
    requires c.ToGo?
    ensures ParseTime(ReadingText(c)) == Some(ReadingSeconds(c))
  {
    CountdownTextParse(c.secondsLeft);
    assert ReadingText(c) == CountdownText(c.secondsLeft);
  }

  /** The flight reading's text reads back as the seconds elapsed. */
  lemma ElapsedParse(c: Reading)
    requires c.Elapsed?
    ensures ParseTime(ReadingText(c)) == Some(ReadingSeconds(c))
  {
    ClockTextParse(c.minutes, c.secs);
    assert ReadingText(c) == ClockText(c.minutes, c.secs);
  }

  /** The reading of a flight time stands for that time truncated toward
      zero; from zero on its seconds field lies in [0, 59]. */
  lemma ReadingOfTime(seconds: real)
    ensures ReadingSeconds(ReadingOf(seconds)) == Trunc(seconds)
    ensures seconds < 0.0 ==> ReadingOf(seconds) == ToGo(-Ceil(seconds))
    ensures seconds >= 0.0 ==>
      ReadingOf(seconds) == Elapsed((seconds / 60.0).Floor, seconds.Floor - 60 * (seconds / 60.0).Floor)
    ensures seconds >= 0.0 ==> ReadingOf(seconds).secs <= 59
  {
    if seconds < 0.0 {
      ReadingBefore(seconds);
    } else {
      ReadingAfter(seconds);
    }
  }

  lemma ReadingBefore(seconds: real)
    requires seconds < 0.0
    ensures ReadingOf(seconds) == ToGo(-Ceil(seconds))
    ensures ReadingSeconds(ReadingOf(seconds)) == Trunc(seconds)
  {
  }

  lemma ReadingAfter(seconds: real)
    requires seconds >= 0.0
    ensures var m := (seconds / 60.0).Floor;
      ReadingOf(seconds) == Elapsed(m, seconds.Floor - 60 * m)
    ensures ReadingSeconds(ReadingOf(seconds)) == Trunc(seconds)
    ensures ReadingOf(seconds).secs <= 59
  {
    FlightClockFields(seconds);
  }

  /** Reading the clock text back gives the time truncated toward zero:
      the countdown shows the seconds still to go, the flight clock the
      whole seconds elapsed. */
  lemma FormatTimeRoundTrip(seconds: real)
    ensures ParseTime(FormatTime(seconds)) == Some(Trunc(seconds))
  {
    if seconds < 0.0 {
      CountdownRoundTrip(seconds);
    } else {
      FlightClockRoundTrip(seconds);
    }
  }

  lemma CountdownRoundTrip(seconds: real)
    requires seconds < 0.0
    ensures ParseTime(FormatTime(seconds)) == Some(Trunc(seconds))
  {
    ReadingBefore(seconds);
    var c := ReadingOf(seconds);
    ToGoParse(c);
    assert FormatTime(seconds) == ReadingText(c);
  }

  lemma FlightClockRoundTrip(seconds: real)
    requires seconds >= 0.0
    ensures ParseTime(FormatTime(seconds)) == Some(Trunc(seconds))
  {
    ReadingAfter(seconds);
    var c := ReadingOf(seconds);
    ElapsedParse(c);
    assert FormatTime(seconds) == ReadingText(c);
  }

  /** For a non-negative time the clock text reads back as the whole
      minutes and the whole seconds within the minute. */
  lemma ClockFields(seconds: real)
    requires seconds >= 0.0
    ensures ParseFields(FormatTime(seconds)) ==
      Some(((seconds / 60.0).Floor, seconds.Floor - 60 * (seconds / 60.0).Floor))
  {
    ReadingAfter(seconds);
    var c := ReadingOf(seconds);
    ClockTextParse(c.minutes, c.secs);
    assert FormatTime(seconds) == ReadingText(Elapsed(c.minutes, c.secs));
    assert ReadingText(Elapsed(c.minutes, c.secs)) == ClockText(c.minutes, c.secs);
  }

  /** From zero on, the clock's two fields are the whole minutes and the
      whole seconds within the minute (in [0, 59]), which together make the
      truncated time. */
  lemma FlightClockFields(seconds: real)
    requires seconds >= 0.0
    ensures var m := (seconds / 60.0).Floor;
      var k := JsRem(seconds, 60.0).Floor;
      && m >= 0 && k == seconds.Floor - 60 * m && 0 <= k <= 59
      && Trunc(seconds) == 60 * m + k
  {
    var m := (seconds / 60.0).Floor;
    assert m as real <= seconds / 60.0 < m as real + 1.0;
    assert 60.0 * m as real <= seconds < 60.0 * m as real + 60.0;
    var rem := JsRem(seconds, 60.0);
    assert Trunc(seconds / 60.0) == m;
    assert rem == seconds - 60.0 * m as real;
    var f := seconds.Floor;
    var k := f - 60 * m;
    assert f as real <= seconds < f as real + 1.0;
    assert k as real <= rem < k as real + 1.0;
  }

  /** Countdown display: "-00:" then the whole seconds left, zero-padded to
      two digits. */
  lemma CountdownClock(seconds: real)
    requires seconds < 0.0
    ensures var r := FormatTime(seconds);
      && |r| >= 6 && r[..4] == "-00:" && AllDigits(r[4..])
      && DecimalValue(r[4..]) == -Ceil(seconds)
      && (seconds > -100.0 ==> |r| == 6)
  {
    ReadingBefore(seconds);
    var n := -Ceil(seconds);
    CountdownTextShape(n);
    assert FormatTime(seconds) == ReadingText(ToGo(n));
    assert ReadingText(ToGo(n)) == CountdownText(n);
  }

  /** Half a second into the last ten, the clock shows nine seconds to go. */
  lemma CountdownExample()
    ensures FormatTime(-9.5) == "-00:09"
  {
    assert ReadingOf(-9.5) == ToGo(9) by {
      assert Ceil(-9.5) == -9;
    }
    assert Pad2(9) == "09" by {
      assert NatToString(9) == "9";
      assert Repeat('0', 1) == "0";
    }
  }

  lemma CountdownTextShape(n: nat)
    ensures var r := CountdownText(n);
      && |r| >= 6 && r[..4] == "-00:" && AllDigits(r[4..]) && DecimalValue(r[4..]) == n
      && (n < 100 ==> |r| == 6)
  {
    Pad2Value(n);
    var r := CountdownText(n);
    assert r[4..] == Pad2(n);
  }

  /** Padding never truncates: from 100 minutes on, the minutes field has
      three or more digits; below that the text is exactly "MM:SS". */
  lemma ClockWidth(seconds: real)
    requires seconds >= 0.0
    ensures var r := FormatTime(seconds);
      var i := ColonIndex(r);
      && (seconds < 6000.0 ==> |r| == 5 && i == 2)
      && (seconds >= 6000.0 ==> i >= 3)
  {
    ReadingAfter(seconds);
    var c := ReadingOf(seconds);
    assert seconds < 6000.0 ==> c.minutes < 100;
    assert seconds >= 6000.0 ==> c.minutes >= 100;
    ClockTextShape(c.minutes, c.secs);
    assert FormatTime(seconds) == ReadingText(Elapsed(c.minutes, c.secs));
    assert ReadingText(Elapsed(c.minutes, c.secs)) == ClockText(c.minutes, c.secs);
  }

  lemma ClockTextShape(m: nat, k: nat)
    requires k < 60
    ensures var r := ClockText(m, k);
      var i := ColonIndex(r);
      && (m < 100 ==> |r| == 5 && i == 2)
      && (m >= 100 ==> i >= 3)
  {
    Pad2Value(m);
    Pad2Value(k);
    ColonAfterDigits(Pad2(m), Pad2(k));
  }

  // ---- status colour ----

  datatype Color = Red | Green | Yellow | Blue

  /** The CSS class each colour is rendered with. */
  function ColorClass(c: Color): string {
    match c
    case Red => "text-spacex-red"
    case Green => "text-green-400"
    case Yellow => "text-yellow-400"
    case Blue => "text-blue-400"
  }

  function StatusColor(status: FlightStatus, armed: bool): Color {
    if status == Aborted then Red
    else if status == InFlight || status == Liftoff then Green
    else if armed then Yellow
    else Blue
  }

  /** The colour rule as a priority: ABORTED first whatever the armed flag,
      then the burn phases, then the armed flag. */
  lemma StatusColorPriority(status: FlightStatus, armed: bool)
    ensures StatusColor(status, armed) == Red <==> status == Aborted
    ensures StatusColor(status, armed) == Green <==> status == InFlight || status == Liftoff
    ensures StatusColor(status, armed) == Yellow <==> armed && !(status == Aborted || status == InFlight || status == Liftoff)
    ensures StatusColor(status, armed) == Blue <==> !armed && !(status == Aborted || status == InFlight || status == Liftoff)
  {
  }

  /** The class string the header applies, by the same priority: red for
      ABORTED, green in the burn phases, yellow when armed, blue otherwise;
      the four classes are distinct. */
  lemma StatusClass(status: FlightStatus, armed: bool)
    ensures var c := ColorClass(StatusColor(status, armed));
      var burning := status == InFlight || status == Liftoff;
      && (c == "text-spacex-red" <==> status == Aborted)
      && (c == "text-green-400" <==> burning)
      && (c == "text-yellow-400" <==> armed && status != Aborted && !burning)
      && (c == "text-blue-400" <==> !armed && status != Aborted && !burning)
  {
    StatusColorPriority(status, armed);
  }

  /** On every state the reducer can reach, the colour depends on the phase
      alone: blue only in STANDBY, green only in flight, and yellow in every
      other phase, LANDED included. */
  lemma ReachableColor(s: RocketState)
    requires SimulationLemmas.Valid(s)
    ensures StatusColor(s.status, s.armed) ==
      match s.status
      case Aborted => Red
      case InFlight => Green
      case Standby => Blue
      case _ => Yellow
  {
  }

  /** The armed indicator. */
  function ArmedText(armed: bool): (t: string)
    ensures t == "YES" <==> armed
    ensures t == "NO" <==> !armed
  {
    if armed then "YES" else "NO"
  }
}
