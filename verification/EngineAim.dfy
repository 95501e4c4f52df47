/** Mouse aim, the ADS key and the switch key: how far a motion moves the aim, and what the modes are after any run. */
module EngineAim {
  import opened Wrappers
  import opened Numbers
  import opened KeyNames
  import opened Products
  import opened SteerVector
  import opened UiKeymap
  import opened TouchTrace
  import opened EngineModel
  import opened EngineSafety
  import opened EngineRuns
  import opened EngineStick

  // ----- how far a motion moves the aim -----

  /** Moved on an axis by d mouse units, at this speed, the accumulated aim changes by d times the speed in pixels, whatever the display's size. */
  ghost predicate MovedBy(before: real, after: real, d: int, speed: real, side: Side) {
    Mul(after - before, side as real) == d as real * speed
  }

  lemma AccumulatesPixels(acc: real, d: int, speed: real, mult: real, side: Side)
    ensures MovedBy(acc, Accumulated(acc, d, speed, mult, side), d, speed * mult, side)
  {
    var q, s := d as real * speed * mult, side as real;
    DivideMultiply(q, s);
    assert Accumulated(acc, d, speed, mult, side) - acc == q / s;
    assert q == d as real * (speed * mult);
    hide Mul;
  }

  /** The speed of an axis: its own ratio unless that is 1, then the common one unless that is 0, then 1. */
  ghost predicate IsSpeed(speed: real, own: real, common: real) {
    && (own != 1.0 ==> speed == own)
    && (own == 1.0 && common != 0.0 ==> speed == common)
    && (own == 1.0 && common == 0.0 ==> speed == 1.0)
  }

  /**
   A motion moves the aim by its own deltas in pixels, each times its own axis's speed and, with ADS on, the ADS
   sensitivity; for the engine as configured.
   */
  lemma AimMovesByDeltas(config: KeymapConfig, w: World, dx: int, dy: int)
    returns (speedX: real, speedY: real)
    requires config.mouse.Some? && w.s.active
    ensures var m := config.mouse.value;
            var k := if w.s.adsActive then m.adsSensitivity else 1.0;
            var w' := AcceptEvent(Setup(config), w, MouseMove(dx, dy));
            && IsSpeed(speedX, m.speedRatioX, m.speedRatio) && IsSpeed(speedY, m.speedRatioY, m.speedRatio)
            && MovedBy(w.s.accX, w'.s.accX, dx, speedX * k, w.s.w)
            && MovedBy(w.s.accY, w'.s.accY, dy, speedY * k, w.s.h)
            && w'.s == w.s.(mouseActive := true, accX := w'.s.accX, accY := w'.s.accY)
  {
    var m := config.mouse.value;
    speedX, speedY := Speed(m.speedRatioX, m.speedRatio), Speed(m.speedRatioY, m.speedRatio);
    var k := if w.s.adsActive then m.adsSensitivity else 1.0;
    AccumulatesPixels(w.s.accX, dx, speedX, k, w.s.w);
    AccumulatesPixels(w.s.accY, dy, speedY, k, w.s.h);
    hide Accumulated, MovedBy, FreePixel, ClampedPixel, NameToKeysym, FirstWheel, FarOff;
  }

  /** The motion ends with the aim pointer moved to the pixel nearest to the configured start plus what has accumulated. */
  lemma AimStartsAtStart(config: KeymapConfig, w: World, dx: int, dy: int)
    requires config.mouse.Some? && w.s.active
    ensures var start, w' := config.mouse.value.start, AcceptEvent(Setup(config), w, MouseMove(dx, dy));
            && w'.trace != [] && var move := w'.trace[|w'.trace| - 1];
            && Concerns(move, PTR_AIM) && move.kind == Move
            && IsNearest(move.x, start.x + w'.s.accX, w.s.w) && IsNearest(move.y, start.y + w'.s.accY, w.s.h)
  {
    hide Aim, NameToKeysym, FirstWheel, IsNearest, Speed;
    AimLands(Setup(config), w, dx, dy);
  }

  /** Without a mouse section in the configuration a motion does nothing. */
  lemma NoMouseNoAim(config: KeymapConfig, w: World, dx: int, dy: int)
    requires config.mouse.None?
    ensures AcceptEvent(Setup(config), w, MouseMove(dx, dy)) == w
  {
    hide NameToKeysym, FirstWheel;
  }

  /** A first motion touches down at the centre; a motion beyond 0.3 from it is lifted where it went and starts anew, no other is. */
  lemma AimRecentres(c: Settings, root: real -> real, w: World, dx: int, dy: int)
    requires w.s.active && c.hasMouse && w.tasks == []
    ensures var w1 := AcceptEvent(c, w, MouseMove(dx, dy));
            var n := |w1.trace| - |w.trace|;
            && w.trace <= w1.trace && n == (if w.s.mouseActive then 1 else 2)
            && (!w.s.mouseActive ==>
                  w1.trace[|w.trace|] == Touch(Down, PTR_AIM, FreePixel(c.mouseCenter.x, w.s.w), FreePixel(c.mouseCenter.y, w.s.h), w.s.w, w.s.h))
            && var move := w1.trace[|w1.trace| - 1];
            && Concerns(move, PTR_AIM) && move.kind == Move
            && (w1.tasks != [] <==> !(-0.3 <= w1.s.accX <= 0.3 && -0.3 <= w1.s.accY <= 0.3))
            && (w1.tasks != [] ==>
                  && TasksFit(c, w1.tasks)
                  && var w2 := RunTask(c, root, w1);
                  && w2.trace == w1.trace + [move.(kind := Up)] && w2.tasks == []
                  && w2.s == w1.s.(mouseActive := false, accX := 0.0, accY := 0.0))
  {
    hide Accumulated, FreePixel, ClampedPixel;
  }

  // ----- the ADS key -----

  /** Whether aiming is slowed after one more event: the last ADS key event while the map was active was a press, and the map was not turned off since. */
  function AdsAfter(c: Settings, active: bool, ads: bool, e: Event): bool {
    if !active then ads
    else
      match e
      case KeyDown(sym, _) => if sym == c.switchSym then false else c.adsSym == Some(sym) || ads
      case KeyUp(sym) => if sym != c.switchSym && c.adsSym == Some(sym) then false else ads
      case _ => ads
  }

  ghost function AdsOver(c: Settings, root: real -> real, w: World, steps: seq<StepKind>, w': World, ads: bool): bool
    requires Run(c, root, w, steps, w')
    decreases |steps|
  {
    if steps == [] then ads
    else
      AdsOver(c, root, Step(c, root, w, steps[0]), steps[1..], w',
              if steps[0].Accept? then AdsAfter(c, w.s.active, ads, steps[0].e) else ads)
  }

  lemma TaskLeavesAds(c: Settings, root: real -> real, w: World)
    requires w.tasks != [] && TasksFit(c, w.tasks)
    ensures RunTask(c, root, w).s.adsActive == w.s.adsActive
  {
    hide TouchAt, Pixel, NamesKey, UpdateWheel;
    var rest := w.(tasks := w.tasks[1..]);
    match w.tasks[0] {
      case Press(idx, sym) =>
        if c.nodes[idx].SteerWheel? {
          WheelLeaves(c, root, rest.(s := rest.s.(steerKeys := rest.s.steerKeys + {sym})), c.nodes[idx]);
        }
      case LetGo(idx, sym) =>
        if c.nodes[idx].SteerWheel? {
          WheelLeaves(c, root, rest.(s := rest.s.(steerKeys := rest.s.steerKeys - {sym})), c.nodes[idx]);
        }
      case Recenter(_, _) =>
    }
  }

  lemma StepOnAds(c: Settings, root: real -> real, w: World, step: StepKind)
    requires Enabled(c, w, step)
    ensures Step(c, root, w, step).s.adsActive
         == if step.Accept? then AdsAfter(c, w.s.active, w.s.adsActive, step.e) else w.s.adsActive
  {
    hide RunTask, IsWalk, Scan, TouchAt, FreePixel, ClampedPixel, Accumulated, ToggleUps, SteerUp, AimUp, FirePos;
    match step {
      case Accept(_) =>
      case Continue => TaskLeavesAds(c, root, w);
      case Thread(i) => ThreadLeavesEngine(w, i);
    }
  }

  /** After every run ADS is on exactly as the events say. */
  lemma {:induction false} AdsFollowsKey(c: Settings, root: real -> real, w: World, steps: seq<StepKind>, w': World)
    requires Run(c, root, w, steps, w')
    ensures w'.s.adsActive == AdsOver(c, root, w, steps, w', w.s.adsActive)
    decreases |steps|
  {
    hide Enabled, Step, AdsAfter;
    if steps != [] {
      StepOnAds(c, root, w, steps[0]);
      AdsFollowsKey(c, root, Step(c, root, w, steps[0]), steps[1..], w');
    }
  }

  // ----- the switch key -----

  /** How often the switch key was pressed. */
  function Switches(c: Settings, steps: seq<StepKind>): nat {
    if steps == [] then 0
    else
      (if steps[0].Accept? && steps[0].e.KeyDown? && steps[0].e.sym == c.switchSym then 1 else 0) + Switches(c, steps[1..])
  }

  lemma StepOnMode(c: Settings, root: real -> real, w: World, step: StepKind)
    requires Enabled(c, w, step) && !HasSwitchMap(c)
    ensures Step(c, root, w, step).s.active == (w.s.active != (Switches(c, [step]) == 1))
  {
    hide RunTask, IsWalk, Scan, TouchAt, FreePixel, ClampedPixel, Accumulated, ToggleUps, SteerUp, AimUp, FirePos;
    assert [step][1..] == [];
    match step {
      case Accept(_) =>
      case Continue => TaskLeavesMode(c, root, w);
      case Thread(i) => ThreadLeavesEngine(w, i);
    }
  }

  lemma {:induction false} RunOnMode(c: Settings, root: real -> real, w: World, steps: seq<StepKind>, w': World)
    requires Run(c, root, w, steps, w') && !HasSwitchMap(c)
    ensures w'.s.active == (w.s.active != (Switches(c, steps) % 2 == 1))
    decreases |steps|
  {
    hide Enabled, Step;
    if steps != [] {
      StepOnMode(c, root, w, steps[0]);
      assert [steps[0]][1..] == [];
      RunOnMode(c, root, Step(c, root, w, steps[0]), steps[1..], w');
    }
  }

  /** Without `switchMap` nodes the map is active exactly after an odd number of presses of the switch key. */
  lemma ModeCountsSwitches(c: Settings, root: real -> real, width: Side, height: Side, steps: seq<StepKind>, w: World)
    requires Run(c, root, Init(width, height), steps, w) && !HasSwitchMap(c)
    ensures w.s.active <==> Switches(c, steps) % 2 == 1
  {
    hide Step, Enabled;
    RunOnMode(c, root, Init(width, height), steps, w);
  }

  /** The switch key is the one configured, or the key left of "1" if that name means nothing; the ADS key needs a mouse section. */
  lemma KeysConfigured(config: KeymapConfig, sym: nat)
    ensures var c, named := Setup(config), NameToKeysym(config.switchKey);
            && (c.switchSym == sym <==> named == Some(sym) || (named.None? && NameToKeysym("QuoteLeft") == Some(sym)))
            && (c.adsSym == Some(sym) <==>
                  config.mouse.Some? && config.mouse.value.adsKey.Some? && NameToKeysym(config.mouse.value.adsKey.value) == Some(sym))
  {
    assert "QuoteLeft"[0] == 'Q' && "Key_"[0] == 'K' && StripPrefix("QuoteLeft") == "QuoteLeft";
    assert NameToKeysym("QuoteLeft") == Some(0x60);
    hide NameToKeysym, FirstWheel;
  }

  // ----- what the handlers report -----

  /** A key is consumed exactly if it is the switch key or, while the map is active, the ADS key or bound to some node. */
  lemma KeyConsumedIff(c: Settings, s: State, sym: nat, order: seq<nat>)
    ensures Consumed(c, s, KeyDown(sym, order)) <==> Consumed(c, s, KeyUp(sym))
    ensures Consumed(c, s, KeyUp(sym))
       <==> sym == c.switchSym
            || (s.active && (c.adsSym == Some(sym) || exists i :: 0 <= i < |c.nodes| && NamedBy(c.nodes[i], sym)))
  {
    hide NameToKeysym, NodeKeys;
    if i :| 0 <= i < |c.nodes| && NamedBy(c.nodes[i], sym) {
      ScannedIff(c.nodes, i, sym);
    }
    if Scan(c.nodes, sym) != [] {
      var i := Scan(c.nodes, sym)[0];
      ScannedIff(c.nodes, i, sym);
      assert NamedBy(c.nodes[i], sym);
    }
    hide Scan;
  }

  /** What is not consumed changes nothing. */
  lemma UnconsumedDoesNothing(c: Settings, w: World, e: Event)
    requires !Consumed(c, w.s, e) && !e.Resize? && w.tasks == []
    ensures AcceptEvent(c, w, e) == w
  {
    hide Scan, FirePos;
    if e.KeyDown? || e.KeyUp? {
      assert KeyTasks(e.KeyDown?, [], e.sym) == [];
    }
  }
}
