/** The per-tick driver of the stroboscope (src/driver.cc): the capture step,
    the update of the game state on each timer tick, the keyboard handler and
    the generator of the test shape.

    Drawing is not modelled. The global vector of captured segments is an
    object of its own, CapturedList, passed to the members that use it. */
module Driver {
  import opened Strobe

  /** TARGET_THETA: captures happen only when the reference angle is a
      multiple of this many degrees. */
  const TargetTheta: int := 60

  /** The members the driver calls that no file of the model defines:
      Segment::SaveAt (the segment baked at a rotation angle),
      Segment::Rotate (the segment turned in place by an angle) and
      Point::Set followed by Point::GetPolar (the radial point for given
      cartesian coordinates). All three are left abstract. */
  datatype Unseen = Unseen(
    saveAt: (Segment, real) -> Segment,
    rotate: (Segment, real) -> Segment,
    polar: (real, real) -> RadialPoint)

  /** C's conversion of a floating-point value to an integer: truncation
      toward zero. */
  function Trunc(x: real): int
  {
    if x >= 0.0 then x.Floor else -((-x).Floor)
  }

  /** Truncation moves toward zero by less than one. */
  lemma TruncTowardZero(x: real)
    ensures 0.0 <= x ==> 0 <= Trunc(x) && Trunc(x) as real <= x < Trunc(x) as real + 1.0
    ensures x < 0.0 ==> Trunc(x) <= 0 && Trunc(x) as real - 1.0 < x <= Trunc(x) as real
  {
  }

  /** The flash period gate of check_overlap. C's `%` truncates, but it is
      zero exactly when Dafny's is, so the gate is the same for every sign. */
  predicate OnPeriod(theta: real)
  {
    Trunc(theta) % TargetTheta == 0
  }

  /** For the reference angles the driver passes, the gate is "a multiple of
      60": of the 60 angles of a lap only 0, 60, 120, 180, 240 and 300 pass. */
  lemma OnPeriodOfTick(k: nat)
    requires k < AngleSteps
    ensures OnPeriod((k * AngleDelta) as real) <==> k % 10 == 0
  {
    ClockConstants();
    var a := k * AngleDelta;
    assert Trunc(a as real) == a;
    assert a == TargetTheta * (k / 10) + AngleDelta * (k % 10);
  }

  /** The baked copies of the segments of `segments` that the flash contains
      at `theta`, in segment order. */
  function Captures(segments: seq<Segment>, flash: Rectangle, theta: real, trig: Trig,
                    saveAt: (Segment, real) -> Segment): (r: seq<Segment>)
    ensures |r| <= |segments|
    decreases |segments|
  {
    if segments == [] then []
    else
      var last := segments[|segments| - 1];
      Captures(segments[..|segments| - 1], flash, theta, trig, saveAt)
        + (if Contains(flash, last, theta, trig) then [saveAt(last, theta)] else [])
  }

  /** Capturing from two runs of segments captures from the first, then from
      the second: the filter keeps segment order. */
  lemma {:induction false} CapturesAppend(s1: seq<Segment>, s2: seq<Segment>, flash: Rectangle,
                                          theta: real, trig: Trig, saveAt: (Segment, real) -> Segment)
    ensures Captures(s1 + s2, flash, theta, trig, saveAt)
         == Captures(s1, flash, theta, trig, saveAt) + Captures(s2, flash, theta, trig, saveAt)
    decreases |s2|
  {
    if s2 == [] {
      assert s1 + s2 == s1;
    } else {
      var n := |s2| - 1;
      assert (s1 + s2)[..|s1 + s2| - 1] == s1 + s2[..n];
      CapturesAppend(s1, s2[..n], flash, theta, trig, saveAt);
    }
  }

  /** A segment is captured exactly when the flash contains it: every entry
      of the result is the baked copy of some contained segment, and every
      contained segment contributes its baked copy. */
  lemma {:induction false} CapturesMembers(segments: seq<Segment>, flash: Rectangle, theta: real,
                                           trig: Trig, saveAt: (Segment, real) -> Segment)
    ensures forall x :: x in Captures(segments, flash, theta, trig, saveAt) <==>
      exists i :: 0 <= i < |segments| && Contains(flash, segments[i], theta, trig) && x == saveAt(segments[i], theta)
    decreases |segments|
  {
    if segments != [] {
      var n := |segments| - 1;
      var init := segments[..n];
      CapturesMembers(init, flash, theta, trig, saveAt);
      forall x
        ensures x in Captures(segments, flash, theta, trig, saveAt) <==>
          exists i :: 0 <= i < |segments| && Contains(flash, segments[i], theta, trig) && x == saveAt(segments[i], theta)
      {
        if exists i :: 0 <= i < |segments| && Contains(flash, segments[i], theta, trig) && x == saveAt(segments[i], theta) {
          var i :| 0 <= i < |segments| && Contains(flash, segments[i], theta, trig) && x == saveAt(segments[i], theta);
          if i < n {
            assert init[i] == segments[i];
          }
        }
      }
    }
  }

  /** What check_overlap appends to the captured vector at `theta`. */
  function OverlapCaptures(segments: seq<Segment>, flash: Rectangle, theta: real, trig: Trig,
                           saveAt: (Segment, real) -> Segment): (r: seq<Segment>)
    ensures |r| <= |segments|
    ensures Trunc(theta) % TargetTheta != 0 ==> r == []
  {
    if OnPeriod(theta) then Captures(segments, flash, theta, trig, saveAt) else []
  }

  /** The global vector of captured segments. */
  class CapturedList {
    var items: seq<Segment>

    /** The vector starts out empty. */
    constructor ()
      ensures items == []
    {
      items := [];
    }
  }

  /** The capture step: off the flash period nothing happens; on it, the baked
      copy of every segment the flash contains is pushed onto `captured`, in
      segment order, after what was there. */
  method CheckOverlap(segments: seq<Segment>, flash: Rectangle, theta: real, trig: Trig,
                      saveAt: (Segment, real) -> Segment, captured: CapturedList)
    modifies captured
    ensures captured.items == old(captured.items) + OverlapCaptures(segments, flash, theta, trig, saveAt)
  {
    if !OnPeriod(theta) {
      assert old(captured.items) + [] == old(captured.items);
      return;
    }
    var i := 0;
    while i < |segments|
      invariant 0 <= i <= |segments|
      invariant captured.items == old(captured.items) + Captures(segments[..i], flash, theta, trig, saveAt)
    {
      var seg := segments[i];
      assert segments[..i + 1][..i] == segments[..i];
      if Contains(flash, seg, theta, trig) {
        captured.items := captured.items + [saveAt(seg, theta)];
      }
      i := i + 1;
    }
    assert segments[..i] == segments;
  }

  /** The value of a GameState: the run and pause flags, the reference clock
      and the live segments. The border is drawing only and is not modelled. */
  datatype Game = Game(running: bool, paused: bool, clock: Clock, segments: seq<Segment>)

  /** A game state together with the captured vector. */
  datatype Run = Run(game: Game, captured: seq<Segment>)

  class GameState {
    var running: bool
    var paused: bool
    const refMark: Reference
    var segments: seq<Segment>

    /** A fresh game runs, is not paused, has no segments, and its reference
        is fresh. */
    constructor ()
      ensures running && !paused && segments == []
      ensures fresh(refMark) && refMark.State() == Clock(0, false)
    {
      running := true;
      paused := false;
      refMark := new Reference();
      segments := [];
    }

    ghost function View(): Game
      reads this, refMark
    {
      Game(running, paused, refMark.State(), segments)
    }
  }

  /** One timer tick: nothing while paused; otherwise the reference ticks, and
      a wrap pauses the game and empties the captured vector, while any other
      tick runs the capture step at the new angle. */
  function Updated(r: Run, flash: Rectangle, trig: Trig, saveAt: (Segment, real) -> Segment): (u: Run)
    ensures u.game.running == r.game.running && u.game.segments == r.game.segments
    ensures !r.game.paused && u.game.paused ==> u.game.clock.looped && u.captured == []
  {
    if r.game.paused then r
    else
      var clock := Advance(r.game.clock);
      if clock.looped then Run(r.game.(paused := true, clock := clock), [])
      else
        Run(r.game.(clock := clock),
            r.captured + OverlapCaptures(r.game.segments, flash, clock.angle as real, trig, saveAt))
  }

  method Update(s: GameState, flash: Rectangle, trig: Trig, saveAt: (Segment, real) -> Segment,
                captured: CapturedList)
    modifies s`paused, s.refMark, captured
    ensures Run(s.View(), captured.items) == Updated(old(Run(s.View(), captured.items)), flash, trig, saveAt)
  {
    if s.paused {
      return;
    }
    s.refMark.Tick();
    if s.refMark.Looped() {
      s.paused := true;
      captured.items := [];
    } else {
      CheckOverlap(s.segments, flash, s.refMark.Angle() as real, trig, saveAt, captured);
    }
  }

  /** A paused update changes nothing. */
  lemma UpdatedWhilePaused(r: Run, flash: Rectangle, trig: Trig, saveAt: (Segment, real) -> Segment)
    requires r.game.paused
    ensures Updated(r, flash, trig, saveAt) == r
  {
  }

  /** An unpaused update ticks the clock exactly once; the flag `running` and
      the segments never change. On a wrap the game pauses and the captured
      vector is emptied; otherwise the game stays unpaused and the captured
      vector grows by the capture step at the new angle. */
  lemma UpdatedWhileRunning(r: Run, flash: Rectangle, trig: Trig, saveAt: (Segment, real) -> Segment)
    requires !r.game.paused
    ensures var u := Updated(r, flash, trig, saveAt);
      && u.game.clock == Advance(r.game.clock)
      && u.game.running == r.game.running
      && u.game.segments == r.game.segments
      && (u.game.clock.looped ==> u.game.paused && u.captured == [])
      && (!u.game.clock.looped ==>
            && !u.game.paused
            && u.captured == r.captured + OverlapCaptures(r.game.segments, flash, u.game.clock.angle as real, trig, saveAt))
  {
  }

  /** The run after `n` timer ticks. */
  function Updates(r: Run, n: nat, flash: Rectangle, trig: Trig, saveAt: (Segment, real) -> Segment): Run
  {
    if n == 0 then r else Updated(Updates(r, n - 1, flash, trig, saveAt), flash, trig, saveAt)
  }

  /** What the captured vector holds after the first `k` ticks of a lap from
      angle 0: the capture step's output at 6, 12, ..., 6k degrees in turn. */
  function Harvest(segments: seq<Segment>, k: nat, flash: Rectangle, trig: Trig,
                   saveAt: (Segment, real) -> Segment): seq<Segment>
  {
    if k == 0 then []
    else Harvest(segments, k - 1, flash, trig, saveAt)
           + OverlapCaptures(segments, flash, (k * AngleDelta) as real, trig, saveAt)
  }

  /** Within a lap from angle 0 with nothing captured, the game stays
      unpaused, the hand is at 6k degrees after k updates with the wrap flag
      clear, and the captured vector is the harvest so far. The lap may be the
      first, from a fresh reference, or a later one, resumed with the flag
      still set by the previous wrap: the first tick clears it either way. */
  lemma {:induction false} UpdatesWithinLap(g: Game, k: nat, flash: Rectangle, trig: Trig,
                                            saveAt: (Segment, real) -> Segment)
    requires !g.paused && g.clock.angle == 0
    requires 0 < k < AngleSteps
    ensures Updates(Run(g, []), k, flash, trig, saveAt)
         == Run(g.(clock := Clock(k * AngleDelta, false)), Harvest(g.segments, k, flash, trig, saveAt))
  {
    ClockConstants();
    if k == 1 {
      OnPeriodOfTick(1);
      assert Harvest(g.segments, 0, flash, trig, saveAt) == [];
    } else {
      UpdatesWithinLap(g, k - 1, flash, trig, saveAt);
      assert k * AngleDelta == (k - 1) * AngleDelta + AngleDelta;
    }
  }

  /** The harvest only grows on the flash period: the ticks after a multiple
      of ten, up to the next one, add nothing. */
  lemma {:induction false} HarvestBetweenFlashes(segments: seq<Segment>, base: nat, j: nat, flash: Rectangle,
                                                 trig: Trig, saveAt: (Segment, real) -> Segment)
    requires base % 10 == 0 && j < 10 && base + j < AngleSteps
    ensures Harvest(segments, base + j, flash, trig, saveAt) == Harvest(segments, base, flash, trig, saveAt)
  {
    if j > 0 {
      var k := base + j;
      assert k % 10 == j by {
        assert base == 10 * (base / 10);
      }
      HarvestBetweenFlashes(segments, base, j - 1, flash, trig, saveAt);
      OnPeriodOfTick(k);
      assert OverlapCaptures(segments, flash, (k * AngleDelta) as real, trig, saveAt) == [];
      assert Harvest(segments, k, flash, trig, saveAt)
          == Harvest(segments, k - 1, flash, trig, saveAt) + [];
    }
  }

  /** One flash's worth of the harvest: the tick at a multiple of ten adds
      the capture step's output at that angle to the harvest up to the
      previous flash. */
  lemma HarvestAtFlash(segments: seq<Segment>, k: nat, flash: Rectangle, trig: Trig,
                       saveAt: (Segment, real) -> Segment)
    requires 0 < k < AngleSteps && k % 10 == 0
    ensures Harvest(segments, k, flash, trig, saveAt)
         == Harvest(segments, k - 10, flash, trig, saveAt)
              + Captures(segments, flash, (k * AngleDelta) as real, trig, saveAt)
  {
    HarvestBetweenFlashes(segments, k - 10, 9, flash, trig, saveAt);
    OnPeriodOfTick(k);
  }

  /** Over the first 59 ticks of a lap the harvest is the capture step's
      output at 60, 120, 180, 240 and 300 degrees, in that order, and
      nothing else. */
  lemma LapHarvest(segments: seq<Segment>, flash: Rectangle, trig: Trig, saveAt: (Segment, real) -> Segment)
    ensures Harvest(segments, AngleSteps - 1, flash, trig, saveAt)
         == Captures(segments, flash, 60.0, trig, saveAt)
          + Captures(segments, flash, 120.0, trig, saveAt)
          + Captures(segments, flash, 180.0, trig, saveAt)
          + Captures(segments, flash, 240.0, trig, saveAt)
          + Captures(segments, flash, 300.0, trig, saveAt)
  {
    ClockConstants();
    var H := (k: nat) => Harvest(segments, k, flash, trig, saveAt);
    var C := (a: real) => Captures(segments, flash, a, trig, saveAt);
    HarvestBetweenFlashes(segments, 50, 9, flash, trig, saveAt);
    HarvestAtFlash(segments, 50, flash, trig, saveAt);
    assert H(50) == H(40) + C(300.0);
    HarvestAtFlash(segments, 40, flash, trig, saveAt);
    assert H(40) == H(30) + C(240.0);
    HarvestAtFlash(segments, 30, flash, trig, saveAt);
    assert H(30) == H(20) + C(180.0);
    HarvestAtFlash(segments, 20, flash, trig, saveAt);
    assert H(20) == H(10) + C(120.0);
    HarvestAtFlash(segments, 10, flash, trig, saveAt);
    assert H(10) == H(0) + C(60.0);
    assert H(0) + C(60.0) == C(60.0);
  }

  /** A full lap: from angle 0, unpaused and with nothing captured, whatever
      the wrap flag, the first 59 updates leave the game unpaused at 354
      degrees, having captured at 60, 120, 180, 240 and 300 degrees and
      nowhere else; the 60th update wraps, pauses the game and empties the
      captured vector. */
  lemma Lap(g: Game, flash: Rectangle, trig: Trig, saveAt: (Segment, real) -> Segment)
    requires !g.paused && g.clock.angle == 0
    ensures var before := Updates(Run(g, []), AngleSteps - 1, flash, trig, saveAt);
      && before.game == g.(clock := Clock(AngleMax - AngleDelta, false))
      && before.captured
           == Captures(g.segments, flash, 60.0, trig, saveAt)
            + Captures(g.segments, flash, 120.0, trig, saveAt)
            + Captures(g.segments, flash, 180.0, trig, saveAt)
            + Captures(g.segments, flash, 240.0, trig, saveAt)
            + Captures(g.segments, flash, 300.0, trig, saveAt)
    ensures Updates(Run(g, []), AngleSteps, flash, trig, saveAt)
         == Run(g.(paused := true, clock := Clock(0, true)), [])
  {
    ClockConstants();
    UpdatesWithinLap(g, AngleSteps - 1, flash, trig, saveAt);
    LapHarvest(g.segments, flash, trig, saveAt);
  }

  /** Laps repeat: after a lap, pressing Space resumes the game at angle 0
      with nothing captured, and it differs from the state the lap started
      in only by the wrap flag, which the next lap's first tick clears. So
      the next lap runs exactly as this one did. */
  lemma LapsRepeat(g: Game, flash: Rectangle, trig: Trig, saveAt: (Segment, real) -> Segment)
    requires !g.paused && g.clock.angle == 0
    ensures var after := Updates(Run(g, []), AngleSteps, flash, trig, saveAt);
      && after.captured == []
      && KeyHandled(after.game, KeyDown(Space)) == g.(clock := Clock(0, true))
    ensures Updates(Run(g.(clock := Clock(0, true)), []), AngleSteps, flash, trig, saveAt)
         == Updates(Run(g, []), AngleSteps, flash, trig, saveAt)
  {
    Lap(g, flash, trig, saveAt);
    Lap(g.(clock := Clock(0, true)), flash, trig, saveAt);
  }

  /** Once paused, the game stays as it is for any number of updates. */
  lemma {:induction false} UpdatesWhilePaused(r: Run, n: nat, flash: Rectangle, trig: Trig,
                                              saveAt: (Segment, real) -> Segment)
    requires r.game.paused
    ensures Updates(r, n, flash, trig, saveAt) == r
  {
    if n > 0 {
      UpdatesWhilePaused(r, n - 1, flash, trig, saveAt);
    }
  }

  /** The keys handle_key_down tells apart; OtherKey is any key that is
      neither Escape nor Space. */
  datatype Key = Escape | Space | OtherKey

  /** An event from the queue: a key press, or any other event type. */
  datatype Event = KeyDown(key: Key) | OtherEvent

  /** The effect of an event on the flags: Escape stops the game, Space
      toggles the pause, everything else is ignored. */
  function KeyHandled(g: Game, e: Event): (h: Game)
    ensures h.clock == g.clock && h.segments == g.segments
    ensures h.running ==> g.running
  {
    if e.KeyDown? then
      var stopped := if e.key == Escape then g.(running := false) else g;
      if e.key == Space then stopped.(paused := !stopped.paused) else stopped
    else g
  }

  method HandleKeyDown(event: Event, state: GameState)
    modifies state`running, state`paused
    ensures state.View() == KeyHandled(old(state.View()), event)
  {
    if event.KeyDown? {
      if event.key == Escape {
        state.running := false;
      }
      if event.key == Space {
        state.paused := !state.paused;
      }
    }
  }

  /** Escape stops the game and leaves everything else as it was. */
  lemma EscapeStops(g: Game)
    ensures KeyHandled(g, KeyDown(Escape)) == g.(running := false)
  {
  }

  /** Space toggles the pause, so pressing it twice changes nothing. */
  lemma SpaceToggles(g: Game)
    ensures KeyHandled(g, KeyDown(Space)).paused == !g.paused
    ensures KeyHandled(g, KeyDown(Space)).running == g.running
    ensures KeyHandled(KeyHandled(g, KeyDown(Space)), KeyDown(Space)) == g
  {
  }

  /** Any other key, and any other kind of event, changes nothing. */
  lemma OtherEventsIgnored(g: Game)
    ensures KeyHandled(g, KeyDown(OtherKey)) == g
    ensures KeyHandled(g, OtherEvent) == g
  {
  }

  /** The test shape of generate_shape, in cartesian coordinates relative to
      the display centre as handed to Point::Set: a box whose four sides are
      each four edges of ShapeStep pixels, its left side ShapeOffset pixels
      right of the centre. */
  const ShapeStep: real := 20.0
  const ShapeOffset: real := 100.0

  datatype Edge = Edge(x1: real, y1: real, x2: real, y2: real)

  /** Edge `i` (0 to 3) of side `side`: 0 is the bottom, 1 the top, 2 the
      left and 3 the right side. */
  function BoxEdge(side: nat, i: nat): Edge
  {
    var step, xoff := ShapeStep, ShapeOffset;
    if side == 0 then Edge(xoff + step * i as real, 0.0, xoff + step * (i + 1) as real, 0.0)
    else if side == 1 then Edge(xoff + step * i as real, -4.0 * step, xoff + step * (i + 1) as real, -4.0 * step)
    else if side == 2 then Edge(xoff, -step * i as real, xoff, -step * (i + 1) as real)
    else Edge(xoff + 4.0 * step, -step * i as real, xoff + 4.0 * step, -step * (i + 1) as real)
  }

  /** The edges are axis-aligned, ShapeStep long, lie in the box from
      (100, -80) to (180, 0), and each side runs on from one edge to the next;
      the four sides meet at the box's corners, so the shape is closed. */
  lemma BoxIsClosed()
    ensures forall side: nat, i: nat | side < 4 && i < 4 ::
      var e := BoxEdge(side, i);
      && (e.x1 == e.x2 || e.y1 == e.y2)
      && (e.x2 - e.x1) + (e.y1 - e.y2) == ShapeStep
      && 100.0 <= e.x1 <= 180.0 && 100.0 <= e.x2 <= 180.0
      && -80.0 <= e.y1 <= 0.0 && -80.0 <= e.y2 <= 0.0
    ensures forall side: nat, i: nat | side < 4 && i < 3 ::
      BoxEdge(side, i).x2 == BoxEdge(side, i + 1).x1 && BoxEdge(side, i).y2 == BoxEdge(side, i + 1).y1
    ensures BoxEdge(0, 0).x1 == BoxEdge(2, 0).x1 == 100.0 && BoxEdge(0, 0).y1 == BoxEdge(2, 0).y1 == 0.0
    ensures BoxEdge(0, 3).x2 == BoxEdge(3, 0).x1 == 180.0 && BoxEdge(0, 3).y2 == BoxEdge(3, 0).y1 == 0.0
    ensures BoxEdge(1, 0).x1 == BoxEdge(2, 3).x2 == 100.0 && BoxEdge(1, 0).y1 == BoxEdge(2, 3).y2 == -80.0
    ensures BoxEdge(1, 3).x2 == BoxEdge(3, 3).x2 == 180.0 && BoxEdge(1, 3).y2 == BoxEdge(3, 3).y2 == -80.0
  {
  }

  /** The segment between the two ends of an edge, as GetPolar gives them. */
  function EdgeSegment(e: Edge, polar: (real, real) -> RadialPoint): Segment
  {
    Segment(polar(e.x1, e.y1), polar(e.x2, e.y2))
  }

  /** The four segments of one side of the box, in the order they are
      pushed. */
  function Side(side: nat, polar: (real, real) -> RadialPoint): (r: seq<Segment>)
    ensures |r| == 4
  {
    seq(4, i requires 0 <= i < 4 => EdgeSegment(BoxEdge(side, i), polar))
  }

  /** The sixteen segments generate_shape appends: bottom, top, left, then
      right. */
  function BoxSegments(polar: (real, real) -> RadialPoint): (box: seq<Segment>)
    ensures |box| == 16
    ensures forall side, i | 0 <= side < 4 && 0 <= i < 4 ::
      box[4 * side + i] == EdgeSegment(BoxEdge(side, i), polar)
  {
    var box := Side(0, polar) + Side(1, polar) + Side(2, polar) + Side(3, polar);
    assert box[..4] == Side(0, polar) && box[4..8] == Side(1, polar);
    assert box[8..12] == Side(2, polar) && box[12..] == Side(3, polar);
    box
  }

  /** The number of flash periods segment `k` is turned by: the k-th value
      of rand() modulo the number of periods in a full turn. For a dividend
      that is never negative C's `%` agrees with Dafny's. */
  function Turns(rand: nat -> nat, k: nat, theta: real): (n: int)
    requires theta != 0.0 && Trunc(360.0 / theta) != 0
    ensures var periods := Trunc(360.0 / theta);
      0 <= n < if periods > 0 then periods else -periods
  {
    rand(k) % Trunc(360.0 / theta)
  }

  /** Scaling both sides of an inequality by a non-negative factor. */
  lemma ScaleLe(a: real, b: real, t: real)
    requires a <= b && 0.0 <= t
    ensures a * t <= b * t
  {
    assert b * t - a * t == (b - a) * t;
  }

  /** For a positive theta, the whole number of periods in a full turn
      spans at most a full turn. */
  lemma PeriodsSpan(theta: real)
    requires 0.0 < theta
    ensures Trunc(360.0 / theta) as real * theta <= 360.0
  {
    TruncTowardZero(360.0 / theta);
    ScaleLe(Trunc(360.0 / theta) as real, 360.0 / theta, theta);
    assert (360.0 / theta) * theta == 360.0;
  }

  /** For a positive period the rotation n * theta stays below a full turn:
      it is one of 0, theta, 2 theta, ... short of 360 degrees. */
  lemma TurnAngleInRange(rand: nat -> nat, k: nat, theta: real)
    requires 0.0 < theta && Trunc(360.0 / theta) != 0
    ensures 0.0 <= Turns(rand, k, theta) as real * theta <= 360.0 - theta
  {
    var periods := Trunc(360.0 / theta);
    var n := Turns(rand, k, theta);
    TruncTowardZero(360.0 / theta);
    assert 0 <= n && n + 1 <= periods;
    PeriodsSpan(theta);
    ScaleLe((n + 1) as real, periods as real, theta);
    ScaleLe(0.0, n as real, theta);
    assert (n + 1) as real * theta == n as real * theta + theta;
  }

  /** Segment `k` turned by its random whole number of periods. */
  function TurnedBy(seg: Segment, k: nat, theta: real, rand: nat -> nat,
                    rotate: (Segment, real) -> Segment): Segment
    requires theta != 0.0 && Trunc(360.0 / theta) != 0
  {
    rotate(seg, Turns(rand, k, theta) as real * theta)
  }

  /** Every segment turned in place by its own random whole number of
      periods. */
  function Rotated(segments: seq<Segment>, theta: real, rand: nat -> nat,
                   rotate: (Segment, real) -> Segment): (r: seq<Segment>)
    requires theta != 0.0 && Trunc(360.0 / theta) != 0
    ensures |r| == |segments|
  {
    seq(|segments|, k requires 0 <= k < |segments| => TurnedBy(segments[k], k, theta, rand, rotate))
  }

  /** generate_shape: append the sixteen box segments, then turn every
      segment of the vector, old ones included, by a random multiple of
      theta. */
  method GenerateShape(s: GameState, theta: real, rand: nat -> nat, unseen: Unseen)
    requires theta != 0.0 && Trunc(360.0 / theta) != 0
    modifies s`segments
    ensures s.segments == Rotated(old(s.segments) + BoxSegments(unseen.polar), theta, rand, unseen.rotate)
  {
    AppendBox(s, unseen.polar);
    RotateEach(s, theta, rand, unseen.rotate);
  }

  /** The four push_back loops of generate_shape. */
  method AppendBox(s: GameState, polar: (real, real) -> RadialPoint)
    modifies s`segments
    ensures s.segments == old(s.segments) + BoxSegments(polar)
  {
    var step, xoff := ShapeStep, ShapeOffset;

    // bottom
    var i := 0;
    while i < 4
      invariant 0 <= i <= 4
      invariant s.segments == old(s.segments) + Side(0, polar)[..i]
    {
      var p1 := polar(xoff + step * i as real, 0.0);
      var p2 := polar(xoff + step * (i + 1) as real, 0.0);
      assert Side(0, polar)[..i + 1] == Side(0, polar)[..i] + [Segment(p1, p2)];
      s.segments := s.segments + [Segment(p1, p2)];
      i := i + 1;
    }
    ghost var done := old(s.segments) + Side(0, polar);

    // top
    i := 0;
    while i < 4
      invariant 0 <= i <= 4
      invariant s.segments == done + Side(1, polar)[..i]
    {
      var p1 := polar(xoff + step * i as real, -4.0 * step);
      var p2 := polar(xoff + step * (i + 1) as real, -4.0 * step);
      assert Side(1, polar)[..i + 1] == Side(1, polar)[..i] + [Segment(p1, p2)];
      s.segments := s.segments + [Segment(p1, p2)];
      i := i + 1;
    }
    done := done + Side(1, polar);

    // left
    i := 0;
    while i < 4
      invariant 0 <= i <= 4
      invariant s.segments == done + Side(2, polar)[..i]
    {
      var p1 := polar(xoff, -step * i as real);
      var p2 := polar(xoff, -step * (i + 1) as real);
      assert Side(2, polar)[..i + 1] == Side(2, polar)[..i] + [Segment(p1, p2)];
      s.segments := s.segments + [Segment(p1, p2)];
      i := i + 1;
    }
    done := done + Side(2, polar);

    // right
    i := 0;
    while i < 4
      invariant 0 <= i <= 4
      invariant s.segments == done + Side(3, polar)[..i]
    {
      var p1 := polar(xoff + 4.0 * step, -step * i as real);
      var p2 := polar(xoff + 4.0 * step, -step * (i + 1) as real);
      assert Side(3, polar)[..i + 1] == Side(3, polar)[..i] + [Segment(p1, p2)];
      s.segments := s.segments + [Segment(p1, p2)];
      i := i + 1;
    }
    assert Side(3, polar)[..4] == Side(3, polar);
    assert s.segments == old(s.segments) + (Side(0, polar) + Side(1, polar) + Side(2, polar) + Side(3, polar));
  }

  /** Turning by the k-th random value modulo the period count is TurnedBy. */
  lemma TurnedByValue(seg: Segment, k: nat, theta: real, rand: nat -> nat,
                      rotate: (Segment, real) -> Segment, n: int, angle: real)
    requires theta != 0.0 && Trunc(360.0 / theta) != 0
    requires n == rand(k) % Trunc(360.0 / theta)
    requires angle == n as real * theta
    ensures rotate(seg, angle) == TurnedBy(seg, k, theta, rand, rotate)
  {
    assert n == Turns(rand, k, theta);
    assert n as real == Turns(rand, k, theta) as real;
    assert angle == Turns(rand, k, theta) as real * theta;
  }

  /** One step of the rotation loop: replacing segment `j` by its turned
      copy extends the rotated prefix by one. */
  lemma RotateStep(segments: seq<Segment>, unrotated: seq<Segment>, j: nat, theta: real, rand: nat -> nat,
                   rotate: (Segment, real) -> Segment, turned: Segment)
    requires theta != 0.0 && Trunc(360.0 / theta) != 0
    requires j < |segments| == |unrotated|
    requires segments[..j] == Rotated(unrotated, theta, rand, rotate)[..j]
    requires segments[j..] == unrotated[j..]
    requires turned == TurnedBy(unrotated[j], j, theta, rand, rotate)
    ensures segments[j] == unrotated[j]
    ensures var next := segments[j := turned];
      && next[..j + 1] == Rotated(unrotated, theta, rand, rotate)[..j + 1]
      && next[j + 1..] == unrotated[j + 1..]
  {
    var rotated := Rotated(unrotated, theta, rand, rotate);
    assert segments[j] == segments[j..][0] == unrotated[j];
    assert rotated[j] == turned;
    var next := segments[j := turned];
    assert next[..j + 1] == rotated[..j] + [rotated[j]] == rotated[..j + 1];
  }

  /** The last loop of generate_shape: turn each segment of the vector in
      place by its own random multiple of theta. */
  method RotateEach(s: GameState, theta: real, rand: nat -> nat, rotate: (Segment, real) -> Segment)
    requires theta != 0.0 && Trunc(360.0 / theta) != 0
    modifies s`segments
    ensures s.segments == Rotated(old(s.segments), theta, rand, rotate)
  {
    ghost var unrotated := s.segments;
    var periods := Trunc(360.0 / theta);
    var j: nat := 0;
    while j < |s.segments|
      invariant j <= |s.segments| == |unrotated|
      invariant s.segments[..j] == Rotated(unrotated, theta, rand, rotate)[..j]
      invariant s.segments[j..] == unrotated[j..]
    {
      var n := rand(j) % periods;
      var angle := n as real * theta;
      TurnedByValue(unrotated[j], j, theta, rand, rotate, n, angle);
      RotateStep(s.segments, unrotated, j, theta, rand, rotate, rotate(unrotated[j], angle));
      s.segments := s.segments[j := rotate(s.segments[j], angle)];
      j := j + 1;
    }
    assert s.segments == s.segments[..j];
  }
}
