# RC car drive link, modelled in Dafny

This project models the drive path of a phone-controlled RC car and proves properties about it.

- **Phone side.** The drive-command hook of the mobile app clamps a throttle (`ud`) and steering (`lr`) pair to ±255. It drops a change smaller than 3 on both channels unless forced, remembers the last pair it sent, and fetches `http://192.168.1.18:8080/drive?ud=<ud>&lr=<lr>`.
- **Car side.** The Arduino sketch parses such a request into its latest throttle and turn commands. Once per control loop it steps a two-state safety machine (IDLE / MOVE) with those commands and the measured obstacle distance. It then turns the machine's throttle and turn into a motor speed with two direction pins, and into a servo angle.

Modules:

- `Fsm` (`fsm.dfy`): `updateFSM`, the state machine.
- `RcControl` (`rc_control.dfy`):
  - `getParamValue`, `clampInt` and the command update of `car_handleRequest`;
  - the computations of `setThrottleOutput` and `setSteeringOutput`;
  - the start state of `car_init`;
  - the car as a whole, stepped by request and loop events.
- `ArduinoString` (`arduino_string.dfy`): the parts of the Arduino `String` class the parser relies on. These are `indexOf`, `startsWith`, `substring`, and `toInt` (which is C's `atol`).
- `ArduinoMath` (`arduino_math.dfy`): `abs`, C's truncating division, and Arduino's `map`.
- `Decimal` (`decimal.dfy`): how an integer is written in base ten, which is what a JavaScript template literal produces for an integral number.
- `DriveCommands` (`drive_commands.dfy`): the hook's `clamp`, `sendDriveCommand`, `sendFollowCommand` and `stopCar`.
  - Each call is a step from the remembered pair to a new one, plus the requests it emits and the error lines it logs.
  - A session is a sequence of calls.
- `EndToEnd` (`end_to_end.dfy`): the two sides together. Every request the phone builds is read back by the car as exactly the pair the phone remembers.

Hardware access becomes values or parameters:

- pin and servo writes are returned as values;
- the measured distance and the outcome of each `fetch` are parameters.

## Model

| member | source | states |
|---|---|---|
| `Fsm.UpdateFsm` | arduino_controller_sketch/fsm.cpp:5-51 | The new distance is stored. The next state is MOVE exactly when some command leaves its ±10 deadzone and the car was already moving or the obstacle is beyond 20 cm. IDLE always carries throttle and turn 0. In MOVE the turn is the commanded turn, and the throttle is the command when the obstacle is beyond 20 cm, else 0. A nonzero throttle is always the commanded one with the obstacle beyond 20 cm. |
| `Fsm.IdleStaysIdle` | arduino_controller_sketch/fsm.cpp:19-30 | From IDLE, with no request or with the obstacle at 20 cm or closer, the car stays IDLE with both outputs 0. |
| `Fsm.IdleStartsMoving` | arduino_controller_sketch/fsm.cpp:19-30 | From IDLE, a request with the obstacle beyond 20 cm moves to MOVE with exactly the commanded throttle and turn. |
| `Fsm.MoveReleasesToIdle` | arduino_controller_sketch/fsm.cpp:41-46 | From MOVE, releasing both commands into their deadzones returns to IDLE with both outputs 0, at any distance. |
| `Fsm.MoveKeepsMoving` | arduino_controller_sketch/fsm.cpp:32-39 | From MOVE with a request, the car stays in MOVE and steers as commanded. The throttle is cut at 20 cm or closer whatever its sign, so reversing is blocked too. |
| `Fsm.DependsOnlyOnTag` | arduino_controller_sketch/fsm.cpp:9-18 | A step reads only the previous state's tag. Two states with the same tag step to the same result. |
| `Fsm.RunStaysSafe` | arduino_controller_sketch/fsm.cpp:5-51 | Over any sequence of inputs, IDLE implies motors off, and a nonzero throttle implies the last distance was beyond 20 cm. |
| `Fsm.ReverseNearObstacleIsBlocked` | arduino_controller_sketch/carTests.cpp:289-301 | Harness case T7 expects reversing at 10 cm to be obeyed. The machine yields throttle 0, so that expectation does not describe it. |
| `Fsm.NoResumeHysteresis` | arduino_controller_sketch/carTests.cpp:318-331 | Harness case T9 expects the throttle to stay blocked at 22 cm. The machine has no resume hysteresis and gives throttle 120 at once. |
| `Fsm.HarnessCasesHold` | arduino_controller_sketch/carTests.cpp:229-359 | The machine gives exactly the expected result for harness cases T1 to T6, T8, T10 and T11. |
| `ArduinoMath.Abs` | arduino_controller_sketch/rc_control.cpp:133 | C `abs` gives the value or its negation, and is never negative. |
| `ArduinoMath.Map` | arduino_controller_sketch/rc_control.cpp:153 | Arduino's `map` sends the low end of the input range to the low end of the output range and the high end to the high end, for any ranges, with the division truncating toward zero. |
| `ArduinoMath.TruncDivExact` | arduino_controller_sketch/rc_control.cpp:153 | C division gives back the exact factor of a multiple, whatever the signs. |
| `ArduinoMath.TruncDivRemainder` | arduino_controller_sketch/rc_control.cpp:153 | The division in `map` truncates toward zero: the remainder has the sign of the dividend and is smaller than the divisor in magnitude. |
| `ArduinoString.IndexOf` | arduino_controller_sketch/rc_control.cpp:52-54 | `indexOf(pat, from)` gives -1 or a position at or after `from` where `pat` occurs. |
| `ArduinoString.IndexOfIsFirst` | arduino_controller_sketch/rc_control.cpp:46-47 | No occurrence lies between `from` and the result. With -1, none lies before the end. |
| `ArduinoString.StartsWith` | arduino_controller_sketch/rc_control.cpp:251 | `startsWith(p)` holds exactly when `p` occurs at position 0. |
| `ArduinoString.Substring` | arduino_controller_sketch/rc_control.cpp:59 | `substring(l, r)` is the slice between the bounds in either order, and is never longer than the string. |
| `ArduinoString.ToInt` | arduino_controller_sketch/rc_control.cpp:61 | A negative result needs a leading `-` after the white space. Text that starts with anything other than white space, a sign or a digit reads as 0. |
| `ArduinoString.ToIntOfNumeral` | arduino_controller_sketch/rc_control.cpp:61 | Leading white space, an optional `+` or `-`, and a run of digits that may have leading zeros are read as the digits' value, negated after `-`. Text follows that does not continue with a digit. A sign with no digits, and blank text, read as 0. |
| `ArduinoString.ToIntOfDecimal` | arduino_controller_sketch/rc_control.cpp:59-61 | `toInt` reads back every integer written in decimal, whatever non-digit text follows it. |
| `Decimal.NatToDecimal` | mobile/hooks/use-drive-commands.ts:35 | The decimal rendering of a natural number is non-empty digits without a leading zero, and denotes that number. |
| `Decimal.IntToDecimal` | mobile/hooks/use-drive-commands.ts:35 | The rendering starts with `-` exactly for negative numbers. |
| `Decimal.IntToDecimalDigits` | mobile/hooks/use-drive-commands.ts:35 | After an optional `-`, the rendering is digits that denote the absolute value. |
| `RcControl.ClampInt` | arduino_controller_sketch/rc_control.cpp:65-69 | The result lies in `[minVal, maxVal]`. It is the value itself inside the range, and the nearer bound outside it. |
| `RcControl.ValueText` | arduino_controller_sketch/rc_control.cpp:51-59 | The value text is a slice of the query that starts at the value position. |
| `RcControl.ValueTextDelimits` | arduino_controller_sketch/rc_control.cpp:51-59 | The value text holds no `&`. When an `&` follows the value position, the text runs exactly to the first one. Otherwise it holds no space and runs to the first space or the end of the query. |
| `RcControl.GetParamValue` | arduino_controller_sketch/rc_control.cpp:45-62 | A parameter that is not found has the value 0. |
| `RcControl.GetParamFoundIff` | arduino_controller_sketch/rc_control.cpp:45-50 | A parameter is found exactly when `name=` occurs somewhere in the query. |
| `RcControl.GetParamAtFirstOccurrence` | arduino_controller_sketch/rc_control.cpp:45-61 | The value is read at the first occurrence of `name=`. |
| `RcControl.ValueTextOfDecimal` | arduino_controller_sketch/rc_control.cpp:51-61 | A decimal number in a query reads back exactly, whatever non-digit text follows it. |
| `RcControl.ParamReadsDecimal` | arduino_controller_sketch/rc_control.cpp:45-62 | The decimal after the first `name=` is found and read back exactly. |
| `RcControl.QueryOf` | arduino_controller_sketch/rc_control.cpp:253-254 | The query is empty without a `?`, and otherwise is the text after some `?`. |
| `RcControl.QueryAfterFirstMark` | arduino_controller_sketch/rc_control.cpp:253-254 | The query is exactly the text after the first `?`. |
| `RcControl.HandleRequest` | arduino_controller_sketch/rc_control.cpp:250-261 | A path that does not start with `/drive`, or has no `?`, changes nothing. A command that does change is within ±255. |
| `RcControl.HandleRequestPerParameter` | arduino_controller_sketch/rc_control.cpp:256-261 | On a `/drive` path each command is updated on its own. When its parameter is found, the command becomes the value read clamped to ±255, so an out-of-range value gives ±255. When `ud=` or `lr=` occurs nowhere in the query, that command keeps its old value, whatever the other parameter does. |
| `RcControl.HandleDriveRequest` | arduino_controller_sketch/rc_control.cpp:250-261 | A `/drive?` request carrying both parameters in range sets both commands to them, whatever they held before. |
| `RcControl.ThrottleOutput` | arduino_controller_sketch/rc_control.cpp:131-147 | The speed is within 0..255: the absolute value inside ±255, and 255 beyond it. The forward pin is high exactly for a positive command and the back pin exactly for a negative one, never both. |
| `RcControl.SteeringAngle` | arduino_controller_sketch/rc_control.cpp:150-157 | The angle written to the servo is always within 0..180. |
| `RcControl.SteeringAngleClosedForm` | arduino_controller_sketch/rc_control.cpp:150-157 | The servo angle is 135 minus the truncated share `(t+255)*90/510` of the clamped turn `t`. |
| `RcControl.SteeringRange` | arduino_controller_sketch/rc_control.cpp:150-157 | The servo angle stays within 45..135. It is 90 at turn 0, 45 at full right (255 and beyond) and 135 at full left. |
| `RcControl.SteeringNonIncreasing` | arduino_controller_sketch/rc_control.cpp:150-157 | A larger turn command never gives a larger servo angle. |
| `RcControl.SteeringTruncationAsymmetry` | arduino_controller_sketch/rc_control.cpp:153 | Turn 1 still gives 90, while turn -1 already gives 91. |
| `RcControl.SteeringDisagreesWithServoTests` | arduino_controller_sketch/test_servo_circuit.cpp:63-88 | The commented-out servo tests expect 180 at full right and 0 at full left. The sketch gives 45 and 135. |
| `RcControl.Step` | arduino_controller_sketch/rc_control.cpp:218-261 | A request changes only the latest commands and leaves the machine alone. A loop step changes only the machine, and records the distance measured for it. |
| `RcControl.RunCar` | arduino_controller_sketch/rc_control.cpp:218-261 | Requests alone never move the machine, and loop steps alone never change the latest commands. |
| `RcControl.RunCarKeepsInvariant` | arduino_controller_sketch/rc_control.cpp:218-261 | Under any interleaving of requests and loop steps, both latest commands stay within ±255, so do the machine's outputs, and the machine stays safe. The motor speed is nonzero only when the last distance was beyond 20 cm. |
| `RcControl.InitialCarIsNeutral` | arduino_controller_sketch/rc_control.cpp:182-192 | The start state satisfies the invariant, with the motor stopped and both pins low, and the servo at 90. |
| `DriveCommands.Clamp` | mobile/hooks/use-drive-commands.ts:8-12 | The result lies in `[-max, max]`. It is the value itself inside the range, and the nearer bound outside it. |
| `DriveCommands.SendDriveCommand` | mobile/hooks/use-drive-commands.ts:18-43 | No request is sent exactly when the call is not forced and both clamped channels are within 3 of the last sent pair. Then nothing changes. Otherwise exactly one request carries the clamped pair, which becomes the remembered pair. One error line is logged exactly when that fetch is rejected. |
| `DriveCommands.JsRound` | mobile/hooks/use-drive-commands.ts:49 | `Math.round` gives the integer within half a unit below and strictly less than half a unit above. |
| `DriveCommands.FollowSteering` | mobile/hooks/use-drive-commands.ts:49 | The steering is the integer nearest to `angle / 45 * 255`, with halves rounded up. |
| `DriveCommands.FollowSteeringWholeDegrees` | mobile/hooks/use-drive-commands.ts:48-49 | For whole degrees the steering is `floor((34a+3)/6)`, and the scaled value is never a rounding tie. |
| `DriveCommands.FollowSteeringRange` | mobile/hooks/use-drive-commands.ts:48-49 | Angles in ±45 give steering in ±255, with ±45 mapped to ±255 and 0 to 0. Steering is monotone in the angle. |
| `DriveCommands.DrivePath` | mobile/hooks/use-drive-commands.ts:35 | A drive path is `/drive`, then `?`, then the drive query. |
| `DriveCommands.DriveUrl` | mobile/hooks/use-drive-commands.ts:3-35 | A drive URL is the car's fixed address `http://192.168.1.18:8080` followed by the drive path. |
| `DriveCommands.SendFollowCommand` | mobile/hooks/use-drive-commands.ts:46-57 | The throttle is 185 or 0, and the scaled steering is sent without forcing. Nothing is sent exactly when both are within the deadband. Otherwise exactly one request is sent. It carries that pair, which becomes the remembered pair, and one error line is logged exactly when its fetch is rejected. |
| `DriveCommands.StopCar` | mobile/hooks/use-drive-commands.ts:59-61 | Stopping always sends the neutral request and resets the remembered pair to (0, 0), whatever it was. One error line is logged exactly when that fetch is rejected. |
| `DriveCommands.StopIsIdempotent` | mobile/hooks/use-drive-commands.ts:59-61 | Stopping twice gives the same result as stopping once from rest. |
| `DriveCommands.DeadbandSuppresses` | mobile/hooks/use-drive-commands.ts:20-30 | After a send, an unforced command whose raw values are within 3 of the previous raw values on both channels sends and changes nothing. This holds for values of any size, because clamping never widens a gap. |
| `DriveCommands.RunKeepsRange` | mobile/hooks/use-drive-commands.ts:15-43 | Over any session, the remembered pair stays within ±255. |
| `DriveCommands.RunStateIsLastRequest` | mobile/hooks/use-drive-commands.ts:32-37 | After any session, the remembered pair is the pair of the last request sent. A session that sent nothing leaves it unchanged. |
| `DriveCommands.FetchOutcomeOnlyLogs` | mobile/hooks/use-drive-commands.ts:32-40 | How the fetches end changes neither the state nor the requests: a failed send is neither rolled back nor retried. |
| `DriveCommands.StopEndsNeutral` | mobile/hooks/use-drive-commands.ts:59-61 | Any session ending with a stop leaves the state at (0, 0) and sends the neutral request last. |
| `EndToEnd.ParamAtStart` | arduino_controller_sketch/rc_control.cpp:45-62 | A parameter written first in a query is read back exactly. |
| `EndToEnd.ParamAfterOthers` | arduino_controller_sketch/rc_control.cpp:45-62 | A parameter written after text that does not contain its first letter is read back exactly. |
| `EndToEnd.DriveQueryReadsUd` | mobile/hooks/use-drive-commands.ts:35 | The car reads the phone's `ud` back from the drive query. |
| `EndToEnd.DriveQueryReadsLr` | mobile/hooks/use-drive-commands.ts:35 | The car reads the phone's `lr` back from the drive query. |
| `EndToEnd.DrivePathRoundTrip` | arduino_controller_sketch/rc_control.cpp:250-261 | A drive path built for an in-range pair sets the car's commands to exactly that pair. This holds whatever the car held before, and with or without the request line's ` HTTP/1.1` tail. |
| `EndToEnd.SessionAgreesWithCar` | mobile/hooks/use-drive-commands.ts:32-35 | After any session from rest that sent something, the car that handles the last request holds exactly the pair the phone remembers. |
| `EndToEnd.GetParamHarnessFirst` | arduino_controller_sketch/carTests.cpp:143-153 | `ud` in `ud=120&lr=-40` is found with the value 120. |
| `EndToEnd.GetParamHarnessLast` | arduino_controller_sketch/carTests.cpp:155-165 | `lr` in `ud=120&lr=-40` is found with the value -40. |
| `EndToEnd.GetParamHarnessSingle` | arduino_controller_sketch/carTests.cpp:167-177 | `ud` in `ud=255` is found with the value 255. |
| `EndToEnd.GetParamHarnessMissing` | arduino_controller_sketch/carTests.cpp:179-189 | `speed` in `ud=120&lr=-40` is not found, and the value is 0. |

## Notes

**Harness expectations that do not hold.** The sketch's own test harness expects two things the machine does not do:

- T7 expects reversing to stay allowed near an obstacle.
- T9 expects a 20–25 cm resume hysteresis.

The commented-out servo tests expect a 0–180 degree sweep. The sketch maps ±255 to 135–45.

These are stated as lemmas about the model as written. They are not claimed as defects, because the code may be what was intended.

## Left out

- Distance measurement is not modelled. This covers the echo interrupt, `triggerUltrasonic` and `calculateDistance` (rc_control.cpp:77-127). The measured distance is the parameter of a loop step.
- `clampFloat` (rc_control.cpp:71-75) is not modelled, because it is not used on the modelled path.
- Hardware writes are returned as values: `analogWrite`, `digitalWrite`, `Servo::write`.
- Pin setup, the watchdog, `delay` and the HTTP response lines of `car_handleRequest` are not modelled, because they do not affect the modelled state.
- Floating point is replaced by exact reals. This covers the distance (including NaN) and the follow-mode scaling.
  - `FollowSteeringWholeDegrees` shows that whole-degree angles are never rounding ties.
  - Fractional angles near a tie might round differently in binary floating point.
- DriveCommands.SendDriveCommand: takes integer channels. The hook accepts any JavaScript number, and a fractional value would be rendered with a decimal point, which the car's `toInt` truncates.
- ArduinoString.IndexOf: searches to the end of the text. `String::indexOf` runs on `strchr`/`strstr`, which stop at an embedded NUL character, so text after a NUL is invisible to the sketch's searches. Such text is not modelled: on a path like `"/drive\0?ud=99"` the sketch finds no `?`, while the model reads `ud`.
- ArduinoString.ToInt: reads digits into an unbounded integer. `atol` overflow beyond the range of `long` is not modelled.
- RcControl.GetParamValue: returns an unbounded integer. The narrowing of `long` to a 32-bit `int` is not modelled.
- Asynchrony is not modelled. This covers `fetch`, its `await` and the order in which concurrent fetches complete. Each call's effect on the remembered pair happens before its `await`, so a call is modelled as one atomic step, and a fetch's outcome only decides whether an error line is logged.
- React's `useRef` and `useCallback` machinery is not modelled. One hook instance is one `Dispatcher` value, starting at (0, 0).
- The joystick screen is not part of this model. This covers its stick-to-PWM mapping and its `setInterval` re-send every 100 ms (CarController.tsx:81-140).
- The camera components and the MP3 screen are not part of this model.
- ArduinoMath.Map: only its endpoints are stated in general. Monotonicity and the range are proved only for the constants `setSteeringOutput` passes (`SteeringRange`, `SteeringNonIncreasing`).
