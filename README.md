# Stroboscope bookkeeping, in Dafny

This project models the bookkeeping core of a small stroboscope animation.
Line segments are stored in polar form around the display centre. A reference
clock hand advances 6 degrees per timer tick. Every segment is drawn rotated by
the hand's angle. At 60, 120, 180, 240 and 300 degrees, a fixed capture
rectangle "flashes": every segment with an endpoint inside it is baked at that
angle and pushed onto a global list of captured segments. Nothing is captured
on the tick that wraps the hand back to 0: that tick completes the lap, pauses
the game and empties the captured list.

Two modules, one per part of the program:

- `Strobe` (`strobe.dfy`) holds the constants, the value types and the capture
  test of `include/strobe.hh` and `src/strobe.cc`. It also holds the reference
  clock: a class `Reference` whose `Tick` updates `angle` and `looped` in place,
  specified by the function `Advance` on the value `Clock`. Lemmas state the
  clock's range, grid and lap properties.
- `Driver` (`driver.dfy`) holds the per-tick logic of `src/driver.cc`.
  `CheckOverlap`, `Update`, `HandleKeyDown` and `GenerateShape` are methods
  over a `GameState` object and a `CapturedList` object, which stands for the
  global `captured` vector. Each method is specified by a function on values:
  `OverlapCaptures`, `Updated`, `KeyHandled`, and `Rotated` of `BoxSegments`.
  Lemmas about those functions state what one update does and what a whole lap
  does.

Conventions:

- Coordinates and segment angles are `real`. The reference angle is an `int`,
  because it only takes the values 0, 6, ..., 354, which a `float` holds exactly.
- `cos` and `sin` are parameters (`Trig`). They take degrees, so they also stand
  for the approximate degree-to-radian factor.
- Three members are called but not defined in these files: `Segment::SaveAt`,
  `Segment::Rotate`, and `Point::Set` followed by `Point::GetPolar`. They are
  function-valued parameters (`Unseen`), with no body invented for them.
- `rand()` is a parameter `rand: nat -> nat`, giving the value of the k-th call.
- Every `RadialPoint` constructor sets the centre to (WIDTH/2, HEIGHT/2) =
  (300, 300), whatever its arguments. So the centre is the pair of constants
  `CentreX` and `CentreY`, not a field of each point.
- Accessors are destructors or `function`s, so they cannot modify anything.
  `GetX`/`GetY` are `Point.x`/`Point.y`, and `GetStart`/`GetEnd` are
  `Segment.start`/`Segment.end`. `Angle` and `Looped` are reads-only functions
  of `Reference`.
- This code has no fading or decay of captured segments. Captured segments stay
  in the list until the lap ends and are then cleared, and the model does the
  same. The capture test is the inclusive, either-endpoint one; this code has no
  exclusive, both-endpoints variant.

## Model

| member | source | states |
|---|---|---|
| `Strobe.ClockConstants` | include/strobe.hh:11-13 | ANGLE_DELTA = ANGLE_MAX / ANGLE_STEPS is 6, and ANGLE_STEPS · ANGLE_DELTA = ANGLE_MAX = 360 |
| `Strobe.CentreIsMidDisplay` | include/strobe.hh:43-44 | every radial point's centre is (WIDTH/2, HEIGHT/2) = (300, 300) |
| `Strobe.RectangleOf` | include/strobe.hh:84-85 | the four-coordinate Rectangle constructor stores the corners (x1, y1) and (x2, y2) exactly as given |
| `Strobe.GetXY` | src/strobe.cc:11-15 | the point lies on the centre when the radius is 0, on the centre's vertical when the cosine of the summed angle is 0, and on its horizontal when the sine is 0 |
| `Strobe.GetXYDependsOnSum` | src/strobe.cc:11-15 | GetXY depends on the stored angle and the offset only through their sum: offset b on angle a equals offset 0 on angle a + b, and any offset can be moved into the stored angle |
| `Strobe.GetXYOfZeroRadius` | src/strobe.cc:12-13 | a point of radius 0 lands on the display centre whatever the angles |
| `Strobe.InBox` | src/strobe.cc:34-35 | one endpoint's closed-box test: it holds only for a well-formed box, and a corner of the box passes it exactly when the box is well formed |
| `Strobe.Contains` | src/strobe.cc:28-41 | the capture test holds only if the rectangle is well formed (p1.x ≤ p2.x and p1.y ≤ p2.y); for a reversed rectangle it is false for every segment |
| `Strobe.ContainsSymmetric` | src/strobe.cc:34-40 | the capture test gives the same answer with the segment's endpoints swapped |
| `Strobe.ContainsOnCorner` | src/strobe.cc:34-40 | the bounds are inclusive: an endpoint exactly on either corner of a well-formed rectangle captures the segment, whatever the other endpoint |
| `Strobe.ContainsNeedsAnEndpoint` | src/strobe.cc:34-40 | if neither rotated endpoint is in the closed box, the segment is not captured |
| `Strobe.Advance` | src/strobe.cc:48-56 | a tick reports a wrap iff angle + 6 ≥ 360, and every non-wrapping tick resets the flag; an angle in [0, 360) stays in [0, 360); the remainder modulo 6 is kept; the new angle is the old plus 6 modulo 360 |
| `Strobe.TicksAngle` | src/strobe.cc:48-56 | after n ticks the angle is the start + 6n − 360 · (number of wraps) |
| `Strobe.TicksStayInRange` | src/strobe.cc:49-51 | from an angle in [0, 360), any number of ticks keeps the angle in [0, 360) and keeps its remainder modulo 6, so multiples of 6 stay multiples of 6 |
| `Strobe.LapReturns` | src/strobe.cc:48-56 | from any angle in [0, 360), ANGLE_STEPS = 60 ticks bring the angle back to its start, and exactly one of them wraps |
| `Strobe.TicksFromZero` | src/strobe.cc:48-56 | from a fresh clock, the first k < 60 ticks leave the angle at 6k without wrapping |
| `Strobe.LapFromZero` | include/strobe.hh:11-13 | from a fresh clock, the 60th tick is the first with looped set, and it returns the angle to 0 |
| `Strobe.Reference.constructor` | include/strobe.hh:111 | a fresh Reference has angle 0 and looped false |
| `Strobe.Reference.Angle` | include/strobe.hh:117 | the read-only accessor returns the angle field and reads nothing but the reference |
| `Strobe.Reference.Looped` | include/strobe.hh:118 | the read-only accessor returns the looped field and reads nothing but the reference |
| `Strobe.Reference.Tick` | src/strobe.cc:48-56 | Tick updates angle and looped in place to Advance of the old state |
| `Driver.Trunc` | src/driver.cc:17 | the `static_cast<long>` of the period gate; TruncTowardZero states how it rounds |
| `Driver.OnPeriod` | src/driver.cc:17 | the period gate: the truncated angle is a multiple of TARGET_THETA = 60; OnPeriodOfTick states which reference angles pass |
| `Driver.TruncTowardZero` | src/driver.cc:17 | the float-to-long cast of the period gate truncates toward zero, by less than one |
| `Driver.OnPeriodOfTick` | src/driver.cc:11-19 | for the reference angles 6k of a lap, the period gate passes iff k is a multiple of 10, that is, at 0, 60, 120, 180, 240 and 300 degrees |
| `Driver.Captures` | src/driver.cc:20-26 | the baked copies of the contained segments, in segment order; never more entries than segments |
| `Driver.CapturesAppend` | src/driver.cc:22-26 | the filter keeps order: capturing from s1 followed by s2 gives the captures from s1 followed by those from s2 |
| `Driver.CapturesMembers` | src/driver.cc:22-26 | x is captured iff x is SaveAt(θ) of some segment that the flash contains at θ |
| `Driver.OverlapCaptures` | src/driver.cc:15-27 | what check_overlap appends: never more entries than segments, and nothing when the truncated angle is not a multiple of 60 |
| `Driver.CapturedList.constructor` | src/driver.cc:13 | the global captured vector starts empty |
| `Driver.CheckOverlap` | src/driver.cc:15-27 | off the period captured is unchanged; on it, captured becomes its old contents followed by SaveAt(θ) of each contained segment, in segment order; only captured is modified |
| `Driver.GameState.constructor` | include/strobe.hh:153-158 | a fresh GameState is running, not paused, has no segments, and owns a fresh Reference at angle 0, not looped |
| `Driver.Update` | src/driver.cc:29-60 | update changes the pause flag, the reference and captured exactly as Updated does; it never touches running or segments |
| `Driver.Updated` | src/driver.cc:29-60 | an update never changes running or the segments, and it pauses a running game only on a wrapping tick, emptying captured as it does |
| `Driver.UpdatedWhilePaused` | src/driver.cc:31 | a paused update changes nothing: angle, looped, paused, segments and captured all stay as they were |
| `Driver.UpdatedWhileRunning` | src/driver.cc:36-55 | an unpaused update ticks exactly once and keeps running and segments. On a wrap it pauses and empties captured, with no capture. Otherwise it stays unpaused and appends the capture step's output at the new angle |
| `Driver.UpdatesWithinLap` | src/driver.cc:36-54 | from angle 0, unpaused and with nothing captured, whatever the wrap flag, after 0 < k < 60 updates the game is unpaused at angle 6k with the flag clear, and captured holds the harvest of the capture steps so far |
| `Driver.HarvestBetweenFlashes` | src/driver.cc:17-19 | ticks between two multiples of 60 degrees add nothing to captured |
| `Driver.HarvestAtFlash` | src/driver.cc:17-26 | the tick at a multiple of 60 degrees adds exactly that angle's captures |
| `Driver.LapHarvest` | src/driver.cc:17-26 | over the first 59 ticks of a lap, captures happen at 60, 120, 180, 240 and 300 degrees, in that order, and nowhere else |
| `Driver.Lap` | src/driver.cc:36-54 | from angle 0, unpaused, with nothing captured, whatever the wrap flag: after 59 updates the game is still unpaused, at 354 degrees, with running and the segments as they were, and captured holds the five flashes' captures; the 60th update pauses it at angle 0, looped, with captured empty |
| `Driver.LapsRepeat` | src/driver.cc:40-47 | after a lap, Space (src/driver.cc:67-69) resumes the game at angle 0 with nothing captured, differing from the lap's start only in the wrap flag, and a lap from that state ends exactly as the first did |
| `Driver.UpdatesWhilePaused` | src/driver.cc:31 | once paused, any number of updates leaves the state unchanged |
| `Driver.KeyHandled` | src/driver.cc:62-71 | a key press never touches the clock or the segments, and it can only stop a game, never restart one |
| `Driver.HandleKeyDown` | src/driver.cc:62-71 | the flags change exactly as KeyHandled says, and nothing else is modified |
| `Driver.EscapeStops` | src/driver.cc:64-66 | Escape sets running to false and changes nothing else |
| `Driver.SpaceToggles` | src/driver.cc:67-69 | Space toggles paused and keeps running, so two presses are the identity |
| `Driver.OtherEventsIgnored` | src/driver.cc:62-71 | any other key, and any event that is not a key press, changes nothing |
| `Driver.BoxIsClosed` | src/driver.cc:82-112 | the 16 edges of the test box are axis-aligned, each 20 long, lie within [100, 180] × [−80, 0], follow on from one another along each side, and the four sides meet at the box's corners |
| `Driver.BoxSegments` | src/driver.cc:85-112 | generate_shape builds exactly 16 segments: bottom, top, left, then right, entry 4·side + i being edge i of that side |
| `Driver.Turns` | src/driver.cc:121 | the number of periods is rand() mod int(360/θ), so n is at least 0 and below the absolute value of int(360/θ) |
| `Driver.TurnAngleInRange` | src/driver.cc:121-122 | for a positive θ the rotation n·θ lies in [0, 360 − θ] |
| `Driver.Rotated` | src/driver.cc:118-123 | rotating every segment keeps the number of segments |
| `Driver.GenerateShape` | src/driver.cc:76-124 | the vector becomes its old contents followed by the 16 box segments, in order. Then every entry, old ones included, is turned in place by its own rand()-chosen multiple of θ |
| `Driver.AppendBox` | src/driver.cc:85-112 | the four push_back loops leave the vector as its old contents followed by the 16 box segments, in order |
| `Driver.RotateEach` | src/driver.cc:118-123 | the rotation loop turns entry k by Turns(rand, k, θ) · θ, and changes nothing else |

## Left out

- Drawing is not modelled: `Segment::Draw`, `Rectangle::Draw`, `Reference::Draw`, `Border::Draw`, `al_draw_line`, `al_draw_filled_rectangle`, `al_draw_circle`, `al_clear_to_color` and `al_flip_display`. They are output through a graphics library, and the model has no display. For the same reason, colours and `mkcol` are not modelled, and `Border` has no state worth modelling beyond what it draws.
- `main` is not modelled: the display, event-queue and timer set-up, their error exits, and the event loop, including the close event that stops the loop. They are I/O over the windowing library.
- Floating-point rounding is not modelled. Coordinates and segment angles are reals. The reference angle is exact, because it only takes multiples of 6.
- The trigonometry in `GetXY` is a parameter: cos, sin and the approximate `RADIANS` factor.
- `Segment::SaveAt`, `Segment::Rotate`, `Point::Set` and `Point::GetPolar` are parameters. Their bodies are not in these files. Because of this, the end-to-end claim that some segment of the test box is captured within a lap cannot be stated: it depends on these members, on cos/sin and on `rand()`.
- `generate_shape` declares `Point p1, p2;`, but `Point` has no default constructor. The model hands the coordinates given to `Set` straight to the abstract `GetPolar`.
- `Turns`, `Rotated`, `GenerateShape` and `RotateEach` require θ ≠ 0 and int(360/θ) ≠ 0, that is, θ not zero and of absolute value at most 360. For any other θ the source computes `rand() % 0`, which is undefined behaviour in C++. The only call passes θ = 60.
- `GenerateShape`, `AppendBox` and `RotateEach` work on the `segments` field of a `GameState`, which is the only vector `generate_shape` is called with. They do not model an arbitrary vector passed by reference.
- `Update` and `CheckOverlap` take the captured vector as an explicit object, `CapturedList`. They do not model it as a process-wide global.
