/** The car side of the link: reading `/drive?ud=..&lr=..` requests into the latest
    commands, and turning the FSM's throttle and turn into motor and servo settings.
    Pin writes are returned as values instead of being performed. */
module RcControl {
  import opened ArduinoMath
  import opened ArduinoString
  import opened Fsm
  import opened Decimal

  /** Largest command magnitude the car accepts on either channel. */
  const MaxCommand: int := 255

  /** `latestThrottleCmd` and `latestTurnCmd`: the most recent values received from the app. */
  datatype Commands = Commands(throttle: int, turn: int)

  predicate InRange(v: int) {
    -MaxCommand <= v <= MaxCommand
  }

  /** The two results of `getParamValue`: the `found` out-parameter and the returned value. */
  datatype Param = Param(found: bool, value: int)

  /** `clampInt(val, minVal, maxVal)`. */
  function ClampInt(val: int, minVal: int, maxVal: int): (r: int)
    ensures minVal <= maxVal ==> minVal <= r <= maxVal
    ensures minVal <= val <= maxVal ==> r == val
    ensures val < minVal ==> r == minVal
    ensures minVal <= maxVal < val ==> r == maxVal
  {
    if val < minVal then minVal
    else if val > maxVal then maxVal
    else val
  }

  /** The text of a parameter value starting at `start`: up to the next `&`; when no `&`
      follows, up to the next space (where " HTTP/1.1" would begin); else to the end. */
  function ValueText(query: string, start: nat): (v: string)
    ensures start <= |query| ==> start + |v| <= |query| && v == query[start..start + |v|]
  {
    var amp := IndexOf(query, "&", start);
    var end :=
      if amp != -1 then amp
      else
        var space := IndexOf(query, " ", start);
        if space != -1 then space else |query|;
    Substring(query, start, end)
  }

  /** The value text is the slice of the query that starts at `start`, holds no `&` (nor a
      space when no `&` follows), and stops at an `&`, at a space, or at the end. */
  lemma ValueTextDelimits(query: string, start: nat)
    requires start <= |query|
    ensures var v := ValueText(query, start);
            && start + |v| <= |query| && v == query[start..start + |v|]
            && '&' !in v
            && ('&' !in query[start..] ==> ' ' !in v)
            && (start + |v| == |query| || query[start + |v|] == '&' || query[start + |v|] == ' ')
            && ('&' in query[start..] ==> start + |v| < |query| && query[start + |v|] == '&')
  {
    var amp := IndexOf(query, "&", start);
    IndexOfIsFirst(query, "&", start);
    if amp != -1 {
      CharNotBefore(query, '&', start, amp);
      assert query[amp..amp + 1] == "&";
      assert query[amp] == '&';
      assert ValueText(query, start) == query[start..amp];
    } else {
      CharNotBefore(query, '&', start, |query|);
      var space := IndexOf(query, " ", start);
      IndexOfIsFirst(query, " ", start);
      var end := if space != -1 then space else |query|;
      CharNotBefore(query, ' ', start, end);
      assert space != -1 ==> query[space..space + 1] == " ";
    }
  }

  /** No position between `from` and `end` holds an occurrence of the character `c`. */
  lemma CharNotBefore(s: string, c: char, from: nat, end: int)
    requires from <= end <= |s|
    requires forall i :: from <= i < end ==> !OccursAt(s, [c], i)
    ensures c !in s[from..end]
  {
    forall i | from <= i < end
      ensures s[i] != c
    {
      assert !OccursAt(s, [c], i);
      assert s[i..i + 1] == [s[i]];
    }
  }

  /** `getParamValue(query, name, found)`: locates the first `name=` and reads the integer
      after it; not found, with value 0, when there is none. */
  function GetParamValue(query: string, name: string): (p: Param)
    ensures !p.found ==> p.value == 0
  {
    var idx := IndexOf(query, name + "=", 0);
    if idx == -1 then Param(false, 0)
    else Param(true, ToInt(ValueText(query, idx + |name| + 1)))
  }

  /** A parameter is found exactly when `name=` occurs somewhere in the query. */
  lemma GetParamFoundIff(query: string, name: string)
    ensures !GetParamValue(query, name).found <==> forall i :: 0 <= i < |query| ==> !OccursAt(query, name + "=", i)
  {
    IndexOfIsFirst(query, name + "=", 0);
  }

  /** When `name=` first occurs at `k`, the value is the integer read from the text that
      follows it, up to the delimiter. */
  lemma GetParamAtFirstOccurrence(query: string, name: string, k: nat)
    requires k < |query| && OccursAt(query, name + "=", k)
    requires forall i :: 0 <= i < k ==> !OccursAt(query, name + "=", i)
    ensures GetParamValue(query, name) == Param(true, ToInt(ValueText(query, k + |name| + 1)))
  {
    IndexOfFirst(query, name + "=", 0, k);
  }

  /** The query part of a request path: everything after the first `?`, or nothing. */
  function QueryOf(path: string): (q: string)
    ensures '?' !in path ==> q == ""
    ensures '?' in path ==> exists k :: 0 <= k < |path| && path[k] == '?' && q == path[k + 1..]
  {
    var k := IndexOf(path, "?", 0);
    if k == -1 then
      IndexOfIsFirst(path, "?", 0);
      CharNotBefore(path, '?', 0, |path|);
      ""
    else
      assert "?"[0] == '?';
      Substring(path, k + 1, |path|)
  }

  /** The query is whatever follows the first `?`. */
  lemma QueryAfterFirstMark(before: string, query: string)
    requires '?' !in before
    ensures QueryOf(before + "?" + query) == query
  {
    var path := before + "?" + query;
    assert path[|before|] == "?"[0];
    forall i | 0 <= i < |before|
      ensures !OccursAt(path, "?", i)
    {
      assert path[i] == before[i];
      assert "?"[0] == '?';
    }
    IndexOfFirst(path, "?", 0, |before|);
  }

  /** The command-update part of `car_handleRequest`: a `/drive` request replaces each
      latest command whose parameter it carries by that value clamped to +-255. */
  function HandleRequest(cmds: Commands, path: string): (r: Commands)
    ensures !StartsWith(path, "/drive") ==> r == cmds
    ensures '?' !in path ==> r == cmds
    ensures r.throttle != cmds.throttle ==> InRange(r.throttle)
    ensures r.turn != cmds.turn ==> InRange(r.turn)
  {
    if !StartsWith(path, "/drive") then cmds
    else
      var query := QueryOf(path);
      var ud := GetParamValue(query, "ud");
      var lr := GetParamValue(query, "lr");
      Commands(
        if ud.found then ClampInt(ud.value, -MaxCommand, MaxCommand) else cmds.throttle,
        if lr.found then ClampInt(lr.value, -MaxCommand, MaxCommand) else cmds.turn)
  }

  /** A `/drive` request updates each latest command on its own: a parameter that is
      found sets its command to the value read, clamped to +-255; a parameter whose
      `name=` occurs nowhere in the query leaves its command as it was. */
  lemma HandleRequestPerParameter(cmds: Commands, path: string, ud: int, lr: int)
    requires StartsWith(path, "/drive")
    ensures var q := QueryOf(path);
            GetParamValue(q, "ud") == Param(true, ud) ==>
              HandleRequest(cmds, path).throttle == ClampInt(ud, -MaxCommand, MaxCommand)
    ensures var q := QueryOf(path);
            GetParamValue(q, "lr") == Param(true, lr) ==>
              HandleRequest(cmds, path).turn == ClampInt(lr, -MaxCommand, MaxCommand)
    ensures var q := QueryOf(path);
            (forall i :: 0 <= i < |q| ==> !OccursAt(q, "ud=", i)) ==>
              HandleRequest(cmds, path).throttle == cmds.throttle
    ensures var q := QueryOf(path);
            (forall i :: 0 <= i < |q| ==> !OccursAt(q, "lr=", i)) ==>
              HandleRequest(cmds, path).turn == cmds.turn
  {
    var q := QueryOf(path);
    GetParamFoundIff(q, "ud");
    GetParamFoundIff(q, "lr");
    assert "ud" + "=" == "ud=";
    assert "lr" + "=" == "lr=";
  }

  /** A `/drive?` request whose query carries both parameters in range sets both commands,
      whatever they were before. */
  lemma HandleDriveRequest(cmds: Commands, query: string, ud: int, lr: int)
    requires GetParamValue(query, "ud") == Param(true, ud) && InRange(ud)
    requires GetParamValue(query, "lr") == Param(true, lr) && InRange(lr)
    ensures HandleRequest(cmds, "/drive?" + query) == Commands(ud, lr)
  {
    var path := "/drive?" + query;
    assert path == "/drive" + "?" + query;
    assert path[..6] == "/drive";
    QueryAfterFirstMark("/drive", query);
  }

  /** A parameter value written in decimal is read back exactly, whatever follows it,
      as long as that does not continue the number. */
  lemma ValueTextOfDecimal(query: string, start: nat, n: int)
    requires DecimalAt(query, start, IntToDecimal(n))
    ensures ToInt(ValueText(query, start)) == n
  {
    var d := IntToDecimal(n);
    var v := ValueText(query, start);
    ValueTextDelimits(query, start);
    if |v| < |d| {
      DecimalNotCut(query, start, n, start + |v|);
      assert false;
    }
    SpanAfterDecimal(query, start, d, v);
    ToIntOfDecimal(n, v[|d|..]);
  }

  /** The decimal `d` sits at `start` in `query` and is not followed by a digit. */
  predicate DecimalAt(query: string, start: int, d: string)
  {
    0 <= start && start + |d| <= |query| && (forall j :: 0 <= j < |d| ==> query[start + j] == d[j])
    && (start + |d| == |query| || !IsDigit(query[start + |d|]))
  }

  /** No delimiter of `ValueText` falls inside a decimal rendering. */
  lemma DecimalNotCut(query: string, start: nat, n: int, j: nat)
    requires DecimalAt(query, start, IntToDecimal(n))
    requires start <= j < start + |IntToDecimal(n)|
    ensures query[j] != '&' && query[j] != ' '
  {
    var d := IntToDecimal(n);
    IntToDecimalDigits(n);
    assert query[j] == d[j - start];
    assert d[j - start] == '-' || IsDigit(d[j - start]);
  }

  /** A span that starts with the decimal `d` is `d` followed by non-digit text. */
  lemma SpanAfterDecimal(query: string, start: nat, d: string, v: string)
    requires DecimalAt(query, start, d)
    requires |d| <= |v| && start + |v| <= |query| && v == query[start..start + |v|]
    ensures v == d + v[|d|..]
    ensures v[|d|..] == [] || !IsDigit(v[|d|..][0])
  {
    assert v[..|d|] == d;
    if |d| < |v| {
      assert v[|d|..][0] == query[start + |d|];
    }
  }

  /** The text `name=` at position `|prefix|` of `prefix + name + "=" + tail`. */
  lemma KeyOccursAfterPrefix(query: string, prefix: string, name: string, tail: string)
    requires query == prefix + name + "=" + tail
    ensures |prefix| < |query| && OccursAt(query, name + "=", |prefix|)
  {
    forall j | 0 <= j < |name| + 1
      ensures query[|prefix| + j] == (name + "=")[j]
    {
    }
  }

  /** In `prefix + name + "=" + decimal + rest`, the decimal sits right after the key. */
  lemma DecimalAfterKey(query: string, prefix: string, name: string, n: int, rest: string)
    requires query == prefix + name + "=" + IntToDecimal(n) + rest
    requires rest == [] || !IsDigit(rest[0])
    ensures DecimalAt(query, |prefix| + |name| + 1, IntToDecimal(n))
  {
    var start := |prefix| + |name| + 1;
    var d := IntToDecimal(n);
    assert query == (prefix + name + "=") + d + rest;
    assert query[start..start + |d|] == d;
    if start + |d| < |query| {
      assert query[start + |d|] == rest[0];
    }
  }

  /** `getParamValue` reads back the decimal value written after the first `name=`,
      whatever follows it as long as that does not continue the number. */
  lemma ParamReadsDecimal(query: string, name: string, k: nat, n: int)
    requires k < |query| && OccursAt(query, name + "=", k)
    requires forall i :: 0 <= i < k ==> !OccursAt(query, name + "=", i)
    requires DecimalAt(query, k + |name| + 1, IntToDecimal(n))
    ensures GetParamValue(query, name) == Param(true, n)
  {
    ValueTextOfDecimal(query, k + |name| + 1, n);
    ReadAtFirstOccurrence(query, name, k, n);
  }

  /** Reading at the first `name=`, given what its value text reads as. */
  lemma ReadAtFirstOccurrence(query: string, name: string, k: nat, n: int)
    requires k < |query| && OccursAt(query, name + "=", k)
    requires forall i :: 0 <= i < k ==> !OccursAt(query, name + "=", i)
    requires ToInt(ValueText(query, k + |name| + 1)) == n
    ensures GetParamValue(query, name) == Param(true, n)
  {
    GetParamAtFirstOccurrence(query, name, k);
  }

  datatype Level = Low | High

  /** What `setThrottleOutput` writes: the PWM speed and the two direction pins. */
  datatype MotorOutput = MotorOutput(speed: int, forward: Level, back: Level)

  /** `setThrottleOutput(ud)` without the pin writes. */
  function ThrottleOutput(ud: int): (m: MotorOutput)
    ensures 0 <= m.speed <= MaxCommand
    ensures InRange(ud) ==> m.speed == Abs(ud)
    ensures !InRange(ud) ==> m.speed == MaxCommand
    ensures m.forward == High <==> ud > 0
    ensures m.back == High <==> ud < 0
    ensures !(m.forward == High && m.back == High)
  {
    var v := ClampInt(ud, -MaxCommand, MaxCommand);
    var speed := Abs(v);
    if v > 0 then MotorOutput(speed, High, Low)
    else if v < 0 then MotorOutput(speed, Low, High)
    else MotorOutput(speed, Low, Low)
  }

  /** `setSteeringOutput(turn)` without the servo write: the servo angle in degrees. */
  function SteeringAngle(turn: int): (angle: int)
    ensures 0 <= angle <= 180
  {
    var t := ClampInt(turn, -MaxCommand, MaxCommand);
    var angleOffset := Map(t, -255, 255, 45, -45);
    ClampInt(angleOffset + 90, 0, 180)
  }

  /** The servo angle in closed form: 135 degrees less the truncated share of the turn. */
  lemma SteeringAngleClosedForm(turn: int)
    ensures SteeringAngle(turn) == 135 - ((ClampInt(turn, -255, 255) + 255) * 90) / 510
    ensures 0 <= ClampInt(turn, -255, 255) + 255 <= 510
  {
    var t := ClampInt(turn, -255, 255);
    var n := (t + 255) * 90;
    assert 0 <= n <= 45900;
    assert (t - -255) * (-45 - 45) == -n;
    assert n / 510 <= 90;
  }

  /** The servo angle is 90 at turn 0, stays within 45..135 for every turn, and reaches
      45 and 135 at full right and full left. */
  lemma SteeringRange(turn: int)
    ensures 45 <= SteeringAngle(turn) <= 135
    ensures turn == 0 ==> SteeringAngle(turn) == 90
    ensures turn >= 255 ==> SteeringAngle(turn) == 45
    ensures turn <= -255 ==> SteeringAngle(turn) == 135
  {
    SteeringAngleClosedForm(turn);
  }

  /** A larger turn command never turns the servo to a larger angle. */
  lemma SteeringNonIncreasing(t1: int, t2: int)
    requires t1 <= t2
    ensures SteeringAngle(t1) >= SteeringAngle(t2)
  {
    SteeringAngleClosedForm(t1);
    SteeringAngleClosedForm(t2);
    var a := ClampInt(t1, -255, 255) + 255;
    var b := ClampInt(t2, -255, 255) + 255;
    DivMonotone(a * 90, b * 90, 510);
  }

  /** Truncation toward zero makes the servo map lopsided: one step right of centre still
      reads 90, one step left already reads 91. */
  lemma SteeringTruncationAsymmetry()
    ensures SteeringAngle(1) == 90 && SteeringAngle(-1) == 91
  {
    SteeringAngleClosedForm(1);
    SteeringAngleClosedForm(-1);
  }

  /** The commented-out servo tests expect 180 at full right and 0 at full left; the
      sketch's mapping gives 45 and 135, so those expectations do not describe it. */
  lemma SteeringDisagreesWithServoTests()
    ensures SteeringAngle(255) == 45 && SteeringAngle(255) != 180
    ensures SteeringAngle(-255) == 135 && SteeringAngle(-255) != 0
  {
  }

  /** The car as the control loop sees it: FSM state and latest commands. */
  datatype Car = Car(fsm: FullState, commands: Commands)

  /** `car_init`: far-away obstacle, motors off, IDLE, no command received yet. */
  const InitialCar: Car := Car(FullState(1000.0, 0, 0, Idle), Commands(0, 0))

  /** What can happen to the car: a request arrives, or the loop steps with a fresh distance. */
  datatype Event = Request(path: string) | Tick(distanceCm: real)

  /** One loop step: the FSM is advanced with the latest commands and the measured distance. */
  function Step(car: Car, e: Event): (next: Car)
    ensures e.Request? ==> next.fsm == car.fsm
    ensures e.Tick? ==> next.commands == car.commands && next.fsm.distanceFromObstacle == e.distanceCm
  {
    match e
    case Request(path) => car.(commands := HandleRequest(car.commands, path))
    case Tick(d) => car.(fsm := UpdateFsm(car.fsm, car.commands.throttle, car.commands.turn, d))
  }

  /** The car after a sequence of events. Requests alone never move it, and loop steps
      alone never change its commands. */
  function RunCar(car: Car, events: seq<Event>): (last: Car)
    ensures (forall i :: 0 <= i < |events| ==> events[i].Request?) ==> last.fsm == car.fsm
    ensures (forall i :: 0 <= i < |events| ==> events[i].Tick?) ==> last.commands == car.commands
    decreases |events|
  {
    if |events| == 0 then car else RunCar(Step(car, events[0]), events[1..])
  }

  /** The car's invariant: the FSM is safe and every command and output is within +-255. */
  predicate CarInvariant(car: Car) {
    && Safe(car.fsm)
    && InRange(car.commands.throttle) && InRange(car.commands.turn)
    && InRange(car.fsm.throttle) && InRange(car.fsm.turn)
  }

  /** Starting from `car_init`, every interleaving of requests and loop steps keeps the
      invariant; the motor therefore never runs unless the last distance was clear. */
  lemma {:induction false} RunCarKeepsInvariant(car: Car, events: seq<Event>)
    requires CarInvariant(car)
    ensures CarInvariant(RunCar(car, events))
    ensures ThrottleOutput(RunCar(car, events).fsm.throttle).speed > 0 ==>
              RunCar(car, events).fsm.distanceFromObstacle > StopDistance
    decreases |events|
  {
    if |events| > 0 {
      RunCarKeepsInvariant(Step(car, events[0]), events[1..]);
    }
  }

  /** `car_init` starts in the invariant, with the motor stopped and the servo centred. */
  lemma InitialCarIsNeutral()
    ensures CarInvariant(InitialCar)
    ensures ThrottleOutput(InitialCar.fsm.throttle) == MotorOutput(0, Low, Low)
    ensures SteeringAngle(InitialCar.fsm.turn) == 90
  {
    assert InitialCar.fsm.turn == 0 && InitialCar.fsm.throttle == 0;
    assert ThrottleOutput(0) == MotorOutput(0, Low, Low);
    SteeringRange(0);
  }
}
