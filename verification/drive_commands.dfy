/** The phone side: the drive-command dispatcher hook. It remembers the last pair it
    sent, drops changes too small to matter unless forced, and emits one
    `/drive?ud=..&lr=..` request per accepted command. Each call is modelled as a
    step from the old dispatcher state to the new one plus the requests it emits;
    the state is written before the first `await`, so a call is atomic. */
module DriveCommands {
  import opened ArduinoMath
  import opened Decimal

  const ArduinoIp: string := "192.168.1.18"
  const Port: int := 8080
  const MaxPwm: int := 255
  /** Changes smaller than this on both channels are not sent. */
  const Deadband: int := 3
  /** Throttle sent by the follow mode when it should drive. */
  const FollowThrottle: int := 185

  /** `clamp(val, max)`: limit to `[-max, max]`. */
  function Clamp(val: int, max: int): (r: int)
    ensures max >= 0 ==> -max <= r <= max
    ensures -max <= val <= max ==> r == val
    ensures max >= 0 && val > max ==> r == max
    ensures max >= 0 && val < -max ==> r == -max
  {
    if val > max then max
    else if val < -max then -max
    else val
  }

  /** The two refs of one hook instance: the last throttle (`ud`) and steering (`lr`) sent. */
  datatype Dispatcher = Dispatcher(lastSentUd: int, lastSentLr: int)

  /** Every hook instance starts from its own (0, 0). */
  const InitialDispatcher: Dispatcher := Dispatcher(0, 0)

  /** The query of a drive request. */
  function DriveQuery(ud: int, lr: int): string {
    "ud=" + IntToDecimal(ud) + "&lr=" + IntToDecimal(lr)
  }

  /** The path and query of a drive request: the `/drive` path, then the query after
      the only `?`. */
  function DrivePath(ud: int, lr: int): (p: string)
    ensures |p| > 7 && p[..6] == "/drive" && p[6] == '?' && p[7..] == DriveQuery(ud, lr)
  {
    "/drive?" + DriveQuery(ud, lr)
  }

  /** The full URL fetched for a drive request: the car's fixed address and port, then
      the drive path. */
  function DriveUrl(ud: int, lr: int): (u: string)
    ensures u == "http://192.168.1.18:8080" + DrivePath(ud, lr)
  {
    PortDecimal();
    "http://" + ArduinoIp + ":" + IntToDecimal(Port) + DrivePath(ud, lr)
  }

  /** The port renders as `8080` in the template literal. */
  lemma PortDecimal()
    ensures IntToDecimal(Port) == "8080"
  {
    assert NatToDecimal(8) == "8";
    assert NatToDecimal(80) == "80";
    assert NatToDecimal(808) == "808";
  }

  /** One drive request; it is fetched as `DriveUrl(ud, lr)`. */
  datatype Request = DriveRequest(ud: int, lr: int)

  /** How the `fetch` of a request ends; only its rejection is observable (as a log line). */
  datatype FetchOutcome = Delivered | Rejected

  /** The result of one call: new state, requests fetched, error lines logged. */
  datatype Effect = Effect(next: Dispatcher, requests: seq<Request>, errorsLogged: nat)

  /** Both clamped channels moved by less than the deadband since the last send. */
  predicate WithinDeadband(s: Dispatcher, ud: int, lr: int) {
    Abs(ud - s.lastSentUd) < Deadband && Abs(lr - s.lastSentLr) < Deadband
  }

  /** `sendDriveCommand(ud, lr, forceUpdate)`. */
  function SendDriveCommand(s: Dispatcher, ud: int, lr: int, force: bool, fetch: FetchOutcome): (e: Effect)
    ensures -MaxPwm <= e.next.lastSentUd <= MaxPwm || e.next == s
    ensures -MaxPwm <= e.next.lastSentLr <= MaxPwm || e.next == s
    ensures |e.requests| <= 1
    ensures |e.requests| == 0 <==> !force && WithinDeadband(s, Clamp(ud, MaxPwm), Clamp(lr, MaxPwm))
    ensures |e.requests| == 0 ==> e.next == s && e.errorsLogged == 0
    ensures |e.requests| == 1 ==>
              e.next == Dispatcher(Clamp(ud, MaxPwm), Clamp(lr, MaxPwm))
              && e.requests[0] == DriveRequest(e.next.lastSentUd, e.next.lastSentLr)
    ensures e.errorsLogged == (if |e.requests| == 1 && fetch == Rejected then 1 else 0)
  {
    var udClamped := Clamp(ud, MaxPwm);
    var lrClamped := Clamp(lr, MaxPwm);
    if !force && WithinDeadband(s, udClamped, lrClamped) then
      Effect(s, [], 0)
    else
      var next := Dispatcher(udClamped, lrClamped);
      Effect(next, [DriveRequest(udClamped, lrClamped)], if fetch == Rejected then 1 else 0)
  }

  /** `Math.round`: the nearest integer, halves rounded up. */
  function JsRound(x: real): (r: int)
    ensures r as real - 0.5 <= x < r as real + 0.5
  {
    (x + 0.5).Floor
  }

  /** The steering sent for a turn angle in degrees: `Math.round((angle / 45) * 255)`. */
  function FollowSteering(turnAngle: real): (r: int)
    ensures r as real - 0.5 <= (turnAngle / 45.0) * 255.0 < r as real + 0.5
  {
    JsRound((turnAngle / 45.0) * 255.0)
  }

  /** For a whole-degree angle the steering is `round(17 * angle / 3)`, which in integer
      arithmetic is `floor((34 * angle + 3) / 6)`; it is never a tie, so binary floating
      point cannot round it the other way. */
  lemma FollowSteeringWholeDegrees(angle: int)
    ensures FollowSteering(angle as real) == (34 * angle + 3) / 6
    ensures (34 * angle + 3) % 6 != 0
  {
    var q := (34 * angle + 3) / 6;
    var x := (angle as real / 45.0) * 255.0;
    assert x == (34 * angle) as real / 6.0;
    assert 6 * q <= 34 * angle + 3 < 6 * q + 6;
    assert q as real - 0.5 <= x < q as real + 0.5;
  }

  /** Within the camera's -45..45 degree range the steering stays within -255..255, reaching
      the ends at the ends, 0 straight ahead; a larger angle never steers less. */
  lemma FollowSteeringRange(a1: real, a2: real)
    requires a1 <= a2
    ensures -45.0 <= a1 <= 45.0 ==> -MaxPwm <= FollowSteering(a1) <= MaxPwm
    ensures FollowSteering(45.0) == 255 && FollowSteering(-45.0) == -255 && FollowSteering(0.0) == 0
    ensures FollowSteering(a1) <= FollowSteering(a2)
  {
    FollowSteeringWholeDegrees(45);
    FollowSteeringWholeDegrees(-45);
    FollowSteeringWholeDegrees(0);
  }

  /** `sendFollowCommand(turnAngle, shouldDrive)`: a fixed forward throttle or none, the
      angle scaled to steering, sent without forcing, so the deadband still applies. */
  function SendFollowCommand(s: Dispatcher, turnAngle: real, shouldDrive: bool, fetch: FetchOutcome): (e: Effect)
    ensures |e.requests| == 0 <==>
              WithinDeadband(s, if shouldDrive then FollowThrottle else 0, Clamp(FollowSteering(turnAngle), MaxPwm))
    ensures |e.requests| == 0 ==> e.next == s
    ensures |e.requests| <= 1
    ensures |e.requests| == 1 ==>
              e.next == Dispatcher(if shouldDrive then FollowThrottle else 0, Clamp(FollowSteering(turnAngle), MaxPwm))
    ensures |e.requests| == 1 ==> e.requests[0] == DriveRequest(e.next.lastSentUd, e.next.lastSentLr)
    ensures e.errorsLogged == (if |e.requests| == 1 && fetch == Rejected then 1 else 0)
  {
    var throttlePwm := if shouldDrive then FollowThrottle else 0;
    SendDriveCommand(s, throttlePwm, FollowSteering(turnAngle), false, fetch)
  }

  /** `stopCar()`: a forced neutral command. */
  function StopCar(s: Dispatcher, fetch: FetchOutcome): (e: Effect)
    ensures e.next == InitialDispatcher
    ensures e.requests == [DriveRequest(0, 0)]
    ensures e.errorsLogged == (if fetch == Rejected then 1 else 0)
  {
    SendDriveCommand(s, 0, 0, true, fetch)
  }

  /** Stopping twice in a row is harmless: both calls send the neutral request and the
      state stays (0, 0). */
  lemma StopIsIdempotent(s: Dispatcher, f1: FetchOutcome, f2: FetchOutcome)
    ensures StopCar(StopCar(s, f1).next, f2) == StopCar(InitialDispatcher, f2)
    ensures StopCar(StopCar(s, f1).next, f2).next == StopCar(s, f1).next
  {
  }

  /** Deadband suppression: after sending a pair, a second unforced command that moves
      each channel by less than the deadband sends nothing and changes nothing; the raw
      values may lie anywhere, since clamping never widens a gap. */
  lemma DeadbandSuppresses(s: Dispatcher, ud1: int, lr1: int, ud2: int, lr2: int, f1: FetchOutcome, f2: FetchOutcome)
    requires Abs(ud2 - ud1) < Deadband && Abs(lr2 - lr1) < Deadband
    ensures var first := SendDriveCommand(s, ud1, lr1, true, f1);
            SendDriveCommand(first.next, ud2, lr2, false, f2) == Effect(first.next, [], 0)
  {
  }

  /** One call of the hook's API. */
  datatype Op = Drive(ud: int, lr: int, force: bool) | Follow(turnAngle: real, shouldDrive: bool) | Stop

  function Apply(s: Dispatcher, op: Op, fetch: FetchOutcome): Effect {
    match op
    case Drive(ud, lr, force) => SendDriveCommand(s, ud, lr, force, fetch)
    case Follow(angle, shouldDrive) => SendFollowCommand(s, angle, shouldDrive, fetch)
    case Stop => StopCar(s, fetch)
  }

  /** A session: the calls in order, each with how its fetch ends. */
  function Run(s: Dispatcher, calls: seq<(Op, FetchOutcome)>): Effect
    decreases |calls|
  {
    if |calls| == 0 then Effect(s, [], 0)
    else
      var first := Apply(s, calls[0].0, calls[0].1);
      var rest := Run(first.next, calls[1..]);
      Effect(rest.next, first.requests + rest.requests, first.errorsLogged + rest.errorsLogged)
  }

  predicate DispatcherInRange(s: Dispatcher) {
    -MaxPwm <= s.lastSentUd <= MaxPwm && -MaxPwm <= s.lastSentLr <= MaxPwm
  }

  /** The remembered pair always stays within -255..255 on both channels. */
  lemma {:induction false} RunKeepsRange(s: Dispatcher, calls: seq<(Op, FetchOutcome)>)
    requires DispatcherInRange(s)
    ensures DispatcherInRange(Run(s, calls).next)
    decreases |calls|
  {
    if |calls| > 0 {
      var first := Apply(s, calls[0].0, calls[0].1);
      RunKeepsRange(first.next, calls[1..]);
    }
  }

  /** "Last sent" means what it says: after any session the state is the pair carried by
      the last request emitted, and a session that emitted nothing left the state alone. */
  lemma {:induction false} RunStateIsLastRequest(s: Dispatcher, calls: seq<(Op, FetchOutcome)>)
    ensures var e := Run(s, calls);
            if |e.requests| == 0 then e.next == s
            else e.requests[|e.requests| - 1] == DriveRequest(e.next.lastSentUd, e.next.lastSentLr)
    decreases |calls|
  {
    if |calls| > 0 {
      var first := Apply(s, calls[0].0, calls[0].1);
      RunStateIsLastRequest(first.next, calls[1..]);
      var rest := Run(first.next, calls[1..]);
      if |rest.requests| == 0 {
        assert first.requests + rest.requests == first.requests;
      } else {
        var all := first.requests + rest.requests;
        assert all[|all| - 1] == rest.requests[|rest.requests| - 1];
      }
    }
  }

  /** Two sessions that make the same calls, whatever their fetches do. */
  predicate SameCalls(c1: seq<(Op, FetchOutcome)>, c2: seq<(Op, FetchOutcome)>) {
    |c1| == |c2| && forall i :: 0 <= i < |c1| ==> c1[i].0 == c2[i].0
  }

  /** The update is optimistic: how the fetches end changes only the error log, never
      the state or the requests, so a failed send is neither rolled back nor retried. */
  lemma {:induction false} FetchOutcomeOnlyLogs(s: Dispatcher, c1: seq<(Op, FetchOutcome)>, c2: seq<(Op, FetchOutcome)>)
    requires SameCalls(c1, c2)
    ensures Run(s, c1).next == Run(s, c2).next
    ensures Run(s, c1).requests == Run(s, c2).requests
    decreases |c1|
  {
    if |c1| > 0 {
      var a := Apply(s, c1[0].0, c1[0].1);
      var b := Apply(s, c2[0].0, c2[0].1);
      assert a.next == b.next && a.requests == b.requests;
      assert SameCalls(c1[1..], c2[1..]);
      FetchOutcomeOnlyLogs(a.next, c1[1..], c2[1..]);
    }
  }

  /** Disengaging always ends neutral: whatever came before, a session that ends with a
      stop leaves the state at (0, 0) and its last request is the neutral command. */
  lemma {:induction false} StopEndsNeutral(s: Dispatcher, calls: seq<(Op, FetchOutcome)>, fetch: FetchOutcome)
    ensures Run(s, calls + [(Stop, fetch)]).next == InitialDispatcher
    ensures var r := Run(s, calls + [(Stop, fetch)]).requests; |r| > 0 && r[|r| - 1] == DriveRequest(0, 0)
    decreases |calls|
  {
    var c := calls + [(Stop, fetch)];
    if |calls| == 0 {
      assert c == [(Stop, fetch)];
      assert c[1..] == [];
    } else {
      var first := Apply(s, calls[0].0, calls[0].1);
      assert c[0] == calls[0];
      assert c[1..] == calls[1..] + [(Stop, fetch)];
      StopEndsNeutral(first.next, calls[1..], fetch);
      var rest := Run(first.next, c[1..]).requests;
      assert Run(s, c).requests == first.requests + rest;
    }
  }
}
