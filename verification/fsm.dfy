/** The car's safety state machine: two states, IDLE and MOVE, stepped once per
    control loop from the latest throttle and turn commands and the measured
    distance to the nearest obstacle. */
module Fsm {
  import opened ArduinoMath

  datatype FsmState = Idle | Move

  /** The whole car state: last measured distance (cm), commanded motor outputs, FSM tag. */
  datatype FullState = FullState(distanceFromObstacle: real, throttle: int, turn: int, state: FsmState)

  /** Commands whose magnitude is at most this are treated as "released". */
  const ThrottleDeadzone: int := 10
  const TurnDeadzone: int := 10
  /** At or below this distance (cm) forward motion is blocked. */
  const StopDistance: real := 20.0

  /** Some command lies outside its deadzone: the operator is asking for motion. */
  predicate Requested(cmdThrottle: int, cmdTurn: int) {
    Abs(cmdThrottle) > ThrottleDeadzone || Abs(cmdTurn) > TurnDeadzone
  }

  /** One step of the machine. */
  function UpdateFsm(curr: FullState, cmdThrottle: int, cmdTurn: int, distanceCm: real): (next: FullState)
    ensures next.distanceFromObstacle == distanceCm
    ensures next.state == Move <==>
              Requested(cmdThrottle, cmdTurn) && (curr.state == Move || distanceCm > StopDistance)
    ensures next.state == Idle ==> next.throttle == 0 && next.turn == 0
    ensures next.state == Move ==> next.turn == cmdTurn
    ensures next.state == Move ==> next.throttle == (if distanceCm > StopDistance then cmdThrottle else 0)
    ensures next.throttle != 0 ==> distanceCm > StopDistance && next.throttle == cmdThrottle
  {
    var next := curr.(distanceFromObstacle := distanceCm);
    match curr.state
    case Idle =>
      if Requested(cmdThrottle, cmdTurn) && distanceCm > StopDistance then
        next.(throttle := cmdThrottle, turn := cmdTurn, state := Move)
      else
        next.(throttle := 0, turn := 0)
    case Move =>
      var moving := next.(throttle := if distanceCm <= StopDistance then 0 else cmdThrottle, turn := cmdTurn);
      if !Requested(cmdThrottle, cmdTurn) then
        moving.(throttle := 0, turn := 0, state := Idle)
      else
        moving
  }

  /** From IDLE the car stays IDLE, with motors off, unless motion is requested and the path is clear. */
  lemma IdleStaysIdle(curr: FullState, cmdThrottle: int, cmdTurn: int, distanceCm: real)
    requires curr.state == Idle
    requires !Requested(cmdThrottle, cmdTurn) || distanceCm <= StopDistance
    ensures UpdateFsm(curr, cmdThrottle, cmdTurn, distanceCm) == FullState(distanceCm, 0, 0, Idle)
  {
  }

  /** From IDLE, a request with a clear path starts moving with exactly the commanded values. */
  lemma IdleStartsMoving(curr: FullState, cmdThrottle: int, cmdTurn: int, distanceCm: real)
    requires curr.state == Idle
    requires Requested(cmdThrottle, cmdTurn) && distanceCm > StopDistance
    ensures UpdateFsm(curr, cmdThrottle, cmdTurn, distanceCm) == FullState(distanceCm, cmdThrottle, cmdTurn, Move)
  {
  }

  /** From MOVE, releasing both commands returns to IDLE with motors off, at any distance. */
  lemma MoveReleasesToIdle(curr: FullState, cmdThrottle: int, cmdTurn: int, distanceCm: real)
    requires curr.state == Move
    requires !Requested(cmdThrottle, cmdTurn)
    ensures UpdateFsm(curr, cmdThrottle, cmdTurn, distanceCm) == FullState(distanceCm, 0, 0, Idle)
  {
  }

  /** From MOVE with a request the car keeps steering as commanded; the throttle is cut
      when the obstacle is close, whatever its sign (reversing away is blocked too). */
  lemma MoveKeepsMoving(curr: FullState, cmdThrottle: int, cmdTurn: int, distanceCm: real)
    requires curr.state == Move
    requires Requested(cmdThrottle, cmdTurn)
    ensures UpdateFsm(curr, cmdThrottle, cmdTurn, distanceCm)
            == FullState(distanceCm, if distanceCm <= StopDistance then 0 else cmdThrottle, cmdTurn, Move)
  {
  }

  /** The step reads only the state tag of the previous state: its distance, throttle
      and turn fields never influence the result. */
  lemma DependsOnlyOnTag(a: FullState, b: FullState, cmdThrottle: int, cmdTurn: int, distanceCm: real)
    requires a.state == b.state
    ensures UpdateFsm(a, cmdThrottle, cmdTurn, distanceCm) == UpdateFsm(b, cmdThrottle, cmdTurn, distanceCm)
  {
  }

  /** The safety invariant: IDLE means motors off, and a running motor means the last
      measured distance was above the stop distance. */
  predicate Safe(s: FullState) {
    && (s.state == Idle ==> s.throttle == 0 && s.turn == 0)
    && (s.throttle != 0 ==> s.distanceFromObstacle > StopDistance)
  }

  /** Run the machine over a sequence of (throttle, turn, distance) inputs. */
  function RunFsm(s: FullState, inputs: seq<(int, int, real)>): FullState
    decreases |inputs|
  {
    if |inputs| == 0 then s
    else RunFsm(UpdateFsm(s, inputs[0].0, inputs[0].1, inputs[0].2), inputs[1..])
  }

  /** Safety is an invariant of every run: after each step, IDLE means motors off and a
      running motor means the last measured distance was above the stop distance. */
  lemma {:induction false} RunStaysSafe(s: FullState, inputs: seq<(int, int, real)>)
    requires Safe(s)
    ensures Safe(RunFsm(s, inputs))
    decreases |inputs|
  {
    if |inputs| > 0 {
      RunStaysSafe(UpdateFsm(s, inputs[0].0, inputs[0].1, inputs[0].2), inputs[1..]);
    }
  }

  /** The test-harness case T7 expects a reverse command to be obeyed near an obstacle;
      the machine cuts the throttle instead, so that test fails against it. */
  lemma ReverseNearObstacleIsBlocked()
    ensures UpdateFsm(FullState(10.0, 0, 0, Move), -120, 0, 10.0).throttle == 0
    ensures UpdateFsm(FullState(10.0, 0, 0, Move), -120, 0, 10.0).throttle != -120
  {
  }

  /** The test-harness case T9 expects the throttle to stay blocked between 20 and 25 cm
      (a resume hysteresis); the machine has no hysteresis and resumes at once. */
  lemma NoResumeHysteresis()
    ensures UpdateFsm(FullState(15.0, 0, 0, Move), 120, 0, 22.0).throttle == 120
  {
  }

  /** The other transition cases of the test harness hold. */
  lemma HarnessCasesHold()
    ensures UpdateFsm(FullState(100.0, 0, 0, Idle), 0, 0, 100.0) == FullState(100.0, 0, 0, Idle)
    ensures UpdateFsm(FullState(100.0, 0, 0, Idle), 100, 20, 100.0) == FullState(100.0, 100, 20, Move)
    ensures UpdateFsm(FullState(10.0, 0, 0, Idle), 100, 20, 10.0) == FullState(10.0, 0, 0, Idle)
    ensures UpdateFsm(FullState(100.0, 80, 10, Move), 120, -30, 100.0) == FullState(100.0, 120, -30, Move)
    ensures UpdateFsm(FullState(25.0, 80, 0, Move), 120, 0, 15.0) == FullState(15.0, 0, 0, Move)
    ensures UpdateFsm(FullState(100.0, 80, 10, Move), 0, 0, 100.0) == FullState(100.0, 0, 0, Idle)
    ensures UpdateFsm(FullState(30.0, 80, 0, Move), 120, 0, 15.0) == FullState(15.0, 0, 0, Move)
    ensures UpdateFsm(FullState(22.0, 0, 0, Move), 120, 0, 30.0) == FullState(30.0, 120, 0, Move)
    ensures UpdateFsm(FullState(100.0, 80, 0, Move), 0, 50, 100.0) == FullState(100.0, 0, 50, Move)
  {
  }
}
