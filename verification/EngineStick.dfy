/** The steer wheel over whole runs: which keys it takes to be held, and where the stick then is. */
module EngineStick {
  import opened Wrappers
  import opened KeyNames
  import opened SteerVector
  import opened UiKeymap
  import opened TouchTrace
  import opened EngineModel
  import opened EngineSafety
  import opened EngineRuns

  // ----- the keys held, told from the events alone -----

  predicate NamedBy(node: Node, sym: nat) {
    exists k :: k in NodeKeys(node) && NameToKeysym(k) == Some(sym)
  }

  predicate KnownTo(node: Node, sym: nat) {
    exists k :: k in NodeKeys(node) && Recognises(k, sym)
  }

  /** A key that some wheel of the map is bound to and recognises. */
  predicate Steers(c: Settings, sym: nat) {
    exists i :: 0 <= i < |c.nodes| && c.nodes[i].SteerWheel? && NamedBy(c.nodes[i], sym) && KnownTo(c.nodes[i], sym)
  }

  /** A key that goes to the map's nodes: neither the switch key nor the ADS key. */
  predicate Ordinary(c: Settings, sym: nat) {
    sym != c.switchSym && c.adsSym != Some(sym)
  }

  /** The wheel keys held after one more event: pressed on a wheel while the map is active, not released since, nor since a switch-off. */
  function HeldAfter(c: Settings, active: bool, held: set<nat>, e: Event): set<nat> {
    if !active then held
    else
      match e
      case KeyDown(sym, _) =>
        if sym == c.switchSym then {} else if Ordinary(c, sym) && Steers(c, sym) then held + {sym} else held
      case KeyUp(sym) => if Ordinary(c, sym) then held - {sym} else held
      case _ => held
  }

  /** The same over a whole run. */
  ghost function HeldOver(c: Settings, root: real -> real, w: World, steps: seq<StepKind>, w': World, held: set<nat>): set<nat>
    requires Run(c, root, w, steps, w')
    decreases |steps|
  {
    if steps == [] then held
    else
      HeldOver(c, root, Step(c, root, w, steps[0]), steps[1..], w',
               if steps[0].Accept? then HeldAfter(c, w.s.active, held, steps[0].e) else held)
  }

  // ----- what a key event's tasks do to the keys held -----

  /** A wheel takes in a key it names and recognises, and forgets any key it is bound to. */
  function AfterTask(c: Settings, keys: set<nat>, task: Task): set<nat> {
    match task
    case Press(idx, sym) =>
      if idx < |c.nodes| && c.nodes[idx].SteerWheel? && NamesKey(c.nodes[idx], sym) then keys + {sym} else keys
    case LetGo(idx, sym) => if idx < |c.nodes| && c.nodes[idx].SteerWheel? then keys - {sym} else keys
    case Recenter(_, _) => keys
  }

  function AfterTasks(c: Settings, keys: set<nat>, tasks: seq<Task>): set<nat>
    decreases |tasks|
  {
    if tasks == [] then keys else AfterTasks(c, AfterTask(c, keys, tasks[0]), tasks[1..])
  }

  predicate Takes(c: Settings, idx: nat, sym: nat) {
    idx < |c.nodes| && c.nodes[idx].SteerWheel? && NamesKey(c.nodes[idx], sym)
  }

  predicate IsWheel(c: Settings, idx: nat) {
    idx < |c.nodes| && c.nodes[idx].SteerWheel?
  }

  lemma {:induction false} AfterPresses(c: Settings, keys: set<nat>, indices: seq<nat>, sym: nat)
    ensures AfterTasks(c, keys, KeyTasks(true, indices, sym))
         == if exists i :: i in indices && Takes(c, i, sym) then keys + {sym} else keys
    decreases |indices|
  {
    hide NamesKey;
    var tasks := KeyTasks(true, indices, sym);
    if indices != [] {
      var keys' := AfterTask(c, keys, tasks[0]);
      assert tasks[1..] == KeyTasks(true, indices[1..], sym);
      AfterPresses(c, keys', indices[1..], sym);
      assert keys' == if Takes(c, indices[0], sym) then keys + {sym} else keys;
      hide Takes;
      assert forall i :: i in indices <==> i == indices[0] || i in indices[1..];
    }
  }

  lemma {:induction false} AfterLettingGo(c: Settings, keys: set<nat>, indices: seq<nat>, sym: nat)
    ensures AfterTasks(c, keys, KeyTasks(false, indices, sym))
         == if exists i :: i in indices && IsWheel(c, i) then keys - {sym} else keys
    decreases |indices|
  {
    var tasks := KeyTasks(false, indices, sym);
    if indices != [] {
      var keys' := AfterTask(c, keys, tasks[0]);
      assert tasks[1..] == KeyTasks(false, indices[1..], sym);
      AfterLettingGo(c, keys', indices[1..], sym);
      assert keys' == if IsWheel(c, indices[0]) then keys - {sym} else keys;
      hide IsWheel;
      assert forall i :: i in indices <==> i == indices[0] || i in indices[1..];
    }
  }

  lemma SteersIff(c: Settings, sym: nat)
    ensures Steers(c, sym) <==> exists i :: i in Scan(c.nodes, sym) && Takes(c, i, sym)
    ensures Steers(c, sym) ==> exists i :: i in Scan(c.nodes, sym) && IsWheel(c, i)
  {
    hide NamesKey, Scan, NodeKeys, NameToKeysym, Recognises;
    if Steers(c, sym) {
      var i :| 0 <= i < |c.nodes| && c.nodes[i].SteerWheel? && NamedBy(c.nodes[i], sym) && KnownTo(c.nodes[i], sym);
      WheelRespondsIff(c, i, sym);
      assert i in Scan(c.nodes, sym) && Takes(c, i, sym) && IsWheel(c, i);
    }
    if i :| i in Scan(c.nodes, sym) && Takes(c, i, sym) {
      WheelRespondsIff(c, i, sym);
      assert NamedBy(c.nodes[i], sym) && KnownTo(c.nodes[i], sym);
    }
  }

  // ----- the keys held, over every run -----

  /** What the engine's set of keys becomes once its tasks are done is `held`. */
  ghost predicate KeysOk(c: Settings, w: World, held: set<nat>) {
    AfterTasks(c, w.s.steerKeys, w.tasks) == held && forall k :: k in held ==> Steers(c, k)
  }

  lemma TaskOnKeys(c: Settings, root: real -> real, w: World)
    requires w.tasks != [] && TasksFit(c, w.tasks)
    ensures var w' := RunTask(c, root, w);
            w'.s.steerKeys == AfterTask(c, w.s.steerKeys, w.tasks[0]) && w'.tasks == w.tasks[1..]
  {
    hide TouchAt, Pixel, NamesKey, UpdateWheel;
    var rest := w.(tasks := w.tasks[1..]);
    match w.tasks[0] {
      case Press(idx, sym) =>
        if c.nodes[idx].SteerWheel? {
          WheelLeaves(c, root, rest.(s := rest.s.(steerKeys := rest.s.steerKeys + {sym})), c.nodes[idx]);
        }
      case LetGo(idx, sym) =>
        if c.nodes[idx].SteerWheel? {
          WheelLeaves(c, root, rest.(s := rest.s.(steerKeys := rest.s.steerKeys - {sym})), c.nodes[idx]);
        }
      case Recenter(_, _) =>
    }
  }

  lemma WheelLeaves(c: Settings, root: real -> real, w: World, node: Node)
    requires node.SteerWheel?
    ensures var w' := UpdateWheel(c, root, w, node);
            && w'.s == w.s.(steerActive := HeldKeys(node, w.s.steerKeys).Any())
            && w'.tasks == w.tasks && w'.threads == w.threads
  {
    hide Displacement, TouchAt, HeldKeys;
  }

  lemma AcceptOnKeys(c: Settings, w: World, held: set<nat>, e: Event)
    requires KeysOk(c, w, held) && w.tasks == []
    ensures KeysOk(c, AcceptEvent(c, w, e), HeldAfter(c, w.s.active, held, e))
  {
    hide Scan, Steers, Pixel, FreePixel, ClampedPixel, Accumulated, NamesKey, FirePos;
    var keys := w.s.steerKeys;
    match e {
      case KeyDown(sym, _) =>
        AfterPresses(c, keys, Scan(c.nodes, sym), sym);
        SteersIff(c, sym);
      case KeyUp(sym) =>
        AfterLettingGo(c, keys, Scan(c.nodes, sym), sym);
        SteersIff(c, sym);
      case MouseMove(dx, dy) =>
        var tasks := AcceptEvent(c, w, e).tasks;
        assert tasks == [] || (|tasks| == 1 && tasks[0].Recenter?);
        assert tasks != [] ==> AfterTasks(c, keys, tasks) == AfterTasks(c, keys, tasks[1..]);
      case _ =>
    }
  }

  lemma StepOnKeys(c: Settings, root: real -> real, w: World, held: set<nat>, step: StepKind)
    requires KeysOk(c, w, held) && Enabled(c, w, step)
    ensures KeysOk(c, Step(c, root, w, step), if step.Accept? then HeldAfter(c, w.s.active, held, step.e) else held)
  {
    hide Steers, AcceptEvent, RunTask, IsWalk, HeldAfter;
    match step {
      case Accept(e) => AcceptOnKeys(c, w, held, e);
      case Continue => TaskOnKeys(c, root, w);
      case Thread(_) =>
    }
  }

  lemma {:induction false} RunOnKeys(c: Settings, root: real -> real, w: World, steps: seq<StepKind>, w': World, held: set<nat>)
    requires KeysOk(c, w, held) && Run(c, root, w, steps, w')
    ensures KeysOk(c, w', HeldOver(c, root, w, steps, w', held))
    decreases |steps|
  {
    hide KeysOk, Enabled, Step, HeldAfter;
    if steps != [] {
      StepOnKeys(c, root, w, held, steps[0]);
      RunOnKeys(c, root, Step(c, root, w, steps[0]), steps[1..], w',
                if steps[0].Accept? then HeldAfter(c, w.s.active, held, steps[0].e) else held);
    }
  }

  /** Between events the engine's set of keys is the set of wheel keys pressed and not released since, nor since a switch-off. */
  lemma KeysAreHeld(c: Settings, root: real -> real, width: Side, height: Side, steps: seq<StepKind>, w: World)
    requires Run(c, root, Init(width, height), steps, w) && w.tasks == []
    ensures w.s.steerKeys == HeldOver(c, root, Init(width, height), steps, w, {})
    ensures forall k :: k in w.s.steerKeys ==> Steers(c, k)
  {
    hide Steers, Step, Enabled;
    RunOnKeys(c, root, Init(width, height), steps, w, {});
  }

  // ----- letting go of the last key -----

  predicate Holds(name: string, held: set<nat>) {
    NameToKeysym(name).Some? && NameToKeysym(name).value in held
  }

  /** The directions of a wheel whose keys are held. */
  function Directions(node: Node, held: set<nat>): Held
    requires node.SteerWheel?
  {
    Held(Holds(node.leftKey, held), Holds(node.rightKey, held), Holds(node.upKey, held), Holds(node.downKey, held))
  }

  lemma NoKeyIsZero(name: string)
    ensures NameToKeysym(name) != Some(0)
  {
  }

  lemma DirectionsAre(c: Settings, node: Node, held: set<nat>)
    requires node.SteerWheel? && forall k :: k in held ==> Steers(c, k)
    ensures HeldKeys(node, held) == Directions(node, held)
  {
    hide NameToKeysym;
    if 0 in held {
      assert Steers(c, 0);
      ZeroSteersNothing(c);
    }
  }

  lemma ZeroSteersNothing(c: Settings)
    ensures !Steers(c, 0)
  {
    hide NameToKeysym;
    if Steers(c, 0) {
      var i :| 0 <= i < |c.nodes| && c.nodes[i].SteerWheel? && NamedBy(c.nodes[i], 0);
      var k :| k in NodeKeys(c.nodes[i]) && NameToKeysym(k) == Some(0);
      NoKeyIsZero(k);
    }
  }

  /** What is left to do for the release of sym, after which `held` is held and no wheel concerned has a key down. */
  ghost predicate LettingGo(c: Settings, w: World, sym: nat, held: set<nat>) {
    && TasksFit(c, w.tasks)
    && (forall i :: 0 <= i < |w.tasks| ==> Drops(c, w.tasks[i], sym, held))
    && w.s.steerKeys - {sym} == held
    && (OnWheel(c, w.tasks) || (w.s.steerKeys == held && !w.s.steerActive))
  }

  ghost predicate Drops(c: Settings, task: Task, sym: nat, held: set<nat>) {
    task.LetGo? && task.sym == sym && (IsWheel(c, task.idx) ==> !HeldKeys(c.nodes[task.idx], held).Any())
  }

  predicate OnWheel(c: Settings, tasks: seq<Task>) {
    exists i :: 0 <= i < |tasks| && tasks[i].LetGo? && IsWheel(c, tasks[i].idx)
  }

  lemma LettingGoOn(c: Settings, root: real -> real, w: World, sym: nat, held: set<nat>, step: StepKind)
    requires LettingGo(c, w, sym, held) && Enabled(c, w, step) && !step.Accept?
    ensures LettingGo(c, Step(c, root, w, step), sym, held)
  {
    hide UpdateWheel, HeldKeys, RunThread;
    match step {
      case Continue =>
        var idx, rest := w.tasks[0].idx, w.(tasks := w.tasks[1..]);
        assert Drops(c, w.tasks[0], sym, held);
        if IsWheel(c, idx) {
          WheelLeaves(c, root, rest.(s := rest.s.(steerKeys := rest.s.steerKeys - {sym})), c.nodes[idx]);
        }
      case Thread(i) =>
        ThreadLeavesEngine(w, i);
    }
  }

  lemma ThreadLeavesEngine(w: World, i: nat)
    requires i < |w.threads|
    ensures RunThread(w, i).s == w.s && RunThread(w, i).tasks == w.tasks
  {
    hide SwipeCommand, TapPixel;
  }

  predicate NoEvents(steps: seq<StepKind>) {
    forall i :: 0 <= i < |steps| ==> !steps[i].Accept?
  }

  lemma {:induction false} LettingGoRun(c: Settings, root: real -> real, w: World, steps: seq<StepKind>, w': World,
                                        sym: nat, held: set<nat>)
    requires LettingGo(c, w, sym, held) && Run(c, root, w, steps, w') && NoEvents(steps)
    ensures LettingGo(c, w', sym, held)
    decreases |steps|
  {
    hide LettingGo, Enabled, Step;
    if steps != [] {
      assert !steps[0].Accept?;
      LettingGoOn(c, root, w, sym, held, steps[0]);
      LettingGoRun(c, root, Step(c, root, w, steps[0]), steps[1..], w', sym, held);
    }
  }

  /** Some wheel is bound to the key, and none that is has a direction held. */
  ghost predicate LastOfItsWheels(c: Settings, sym: nat, held: set<nat>) {
    && (exists i: nat :: IsWheel(c, i) && NamedBy(c.nodes[i], sym))
    && (forall i: nat :: IsWheel(c, i) && NamedBy(c.nodes[i], sym) ==> !Directions(c.nodes[i], held).Any())
  }

  lemma StartsLettingGo(c: Settings, w: World, sym: nat, held: set<nat>)
    requires w.tasks == [] && w.s.active && Ordinary(c, sym) && held == w.s.steerKeys - {sym}
    requires (forall k :: k in held ==> Steers(c, k)) && LastOfItsWheels(c, sym, held)
    ensures LettingGo(c, AcceptEvent(c, w, KeyUp(sym)), sym, held)
  {
    hide Scan, Steers, NameToKeysym, NodeKeys, HeldKeys, Directions;
    var indices, w' := Scan(c.nodes, sym), AcceptEvent(c, w, KeyUp(sym));
    assert w'.tasks == KeyTasks(false, indices, sym);
    forall i | 0 <= i < |w'.tasks|
      ensures Drops(c, w'.tasks[i], sym, held)
    {
      var idx := indices[i];
      ScannedIff(c.nodes, idx, sym);
      if IsWheel(c, idx) {
        DirectionsAre(c, c.nodes[idx], held);
      }
    }
    var idx: nat :| IsWheel(c, idx) && NamedBy(c.nodes[idx], sym);
    ScannedIff(c.nodes, idx, sym);
    var i :| 0 <= i < |indices| && indices[i] == idx;
    assert w'.tasks[i].LetGo? && IsWheel(c, w'.tasks[i].idx);
  }

  /** Once the release of a key that leaves none of its wheels' keys held has been dealt with, the stick is up. */
  lemma LastKeyLiftsStick(c: Settings, root: real -> real, width: Side, height: Side, steps: seq<StepKind>, w: World,
                          sym: nat, more: seq<StepKind>, w': World)
    requires Run(c, root, Init(width, height), steps, w) && w.tasks == [] && w.s.active && Ordinary(c, sym)
    requires LastOfItsWheels(c, sym, HeldOver(c, root, Init(width, height), steps, w, {}) - {sym})
    requires Run(c, root, Step(c, root, w, Accept(KeyUp(sym))), more, w') && NoEvents(more) && w'.tasks == []
    ensures PhaseOf(w'.trace, PTR_STEER) == Lifted
  {
    hide Steers, LastOfItsWheels, AcceptEvent, Inv, HeldOver;
    var w0, release := Init(width, height), Accept(KeyUp(sym));
    KeysAreHeld(c, root, width, height, steps, w);
    StartsLettingGo(c, w, sym, w.s.steerKeys - {sym});
    InitHolds(c, width, height);
    RunKeeps(c, root, w0, steps, w);
    StepKeeps(c, root, w, release);
    hide Step, Run;
    LettingGoRun(c, root, Step(c, root, w, release), more, w', sym, w.s.steerKeys - {sym});
    RunKeeps(c, root, Step(c, root, w, release), more, w');
    LiftedByFlag(c, w');
  }

  lemma LiftedByFlag(c: Settings, w: World)
    requires Inv(c, w)
    ensures PhaseOf(w.trace, PTR_STEER) == Expected(w.s.steerActive)
  {
  }

  // ----- a map with one wheel -----

  ghost predicate OnlyWheel(c: Settings, idx: nat) {
    && IsWheel(c, idx) && (forall i: nat :: IsWheel(c, i) ==> i == idx)
    && c.steerCenter == c.nodes[idx].center && c.steerOffsets == c.nodes[idx].offsets
  }

  /** The engine steers by the centre and the offsets of its only wheel. */
  lemma {:induction false} WheelFound(nodes: seq<Node>, idx: nat)
    requires idx < |nodes| && nodes[idx].SteerWheel?
    requires forall i :: 0 <= i < |nodes| && nodes[i].SteerWheel? ==> i >= idx
    ensures FirstWheel(nodes) == (nodes[idx].center, nodes[idx].offsets)
  {
    if idx > 0 {
      WheelFound(nodes[1..], idx - 1);
    }
  }

  lemma OneWheelConfigured(config: KeymapConfig, idx: nat)
    requires idx < |config.nodes| && config.nodes[idx].SteerWheel?
    requires forall i :: 0 <= i < |config.nodes| && config.nodes[i].SteerWheel? ==> i == idx
    ensures OnlyWheel(Setup(config), idx)
  {
    hide NameToKeysym;
    WheelFound(config.nodes, idx);
    hide FirstWheel;
  }

  /** A move of the stick to where the directions held push it, on the display in force when it was sent. */
  ghost predicate PointsTo(cmd: Command, center: Pos, d: Pos) {
    && cmd.Touch? && cmd.kind == Move && 1 <= cmd.w <= MAX_SIDE && 1 <= cmd.h <= MAX_SIDE
    && IsNearest(cmd.x, center.x + d.x, cmd.w) && IsNearest(cmd.y, center.y + d.y, cmd.h)
  }

  /** The steer pointer is in use exactly if a direction is held, and was last sent to where the stick is. */
  ghost predicate StickOk(c: Settings, root: real -> real, w: World, node: Node)
    requires node.SteerWheel?
  {
    var held, last := HeldKeys(node, w.s.steerKeys), LastOn(w.trace, PTR_STEER);
    && w.s.steerActive == held.Any()
    && (held.Any() ==> last.Some? && PointsTo(last.value, c.steerCenter, Displacement(c.steerOffsets, held, root)))
  }

  lemma WheelPoints(c: Settings, root: real -> real, w: World, node: Node)
    requires node.SteerWheel?
    ensures StickOk(c, root, UpdateWheel(c, root, w, node), node)
  {
    hide Displacement, Pixel, IsNearest, HeldKeys;
    WheelLeaves(c, root, w, node);
    var held := HeldKeys(node, w.s.steerKeys);
    if held.Any() {
      var d := Displacement(c.steerOffsets, held, root);
      var w' := UpdateWheel(c, root, w, node);
      assert LastOn(w'.trace, PTR_STEER) == Some(w'.trace[|w'.trace| - 1]);
      PixelIsNearest(c.steerCenter.x + d.x, w.s.w);
      PixelIsNearest(c.steerCenter.y + d.y, w.s.h);
    }
  }

  /** What the wheel goes by is unchanged. */
  ghost predicate SameStick(w: World, w': World) {
    w'.s.steerKeys == w.s.steerKeys && w'.s.steerActive == w.s.steerActive && Quiet(w.trace, w'.trace, PTR_STEER)
  }

  lemma StickStays(c: Settings, root: real -> real, w: World, w': World, node: Node)
    requires node.SteerWheel? && StickOk(c, root, w, node) && SameStick(w, w')
    ensures StickOk(c, root, w', node)
  {
    LastOnQuiet(w.trace, w'.trace, PTR_STEER);
  }

  ghost predicate PointersAbove(s: State) {
    PTR_BASE <= s.nextPointer && forall i :: i in s.pointers ==> PTR_BASE <= s.pointers[i]
  }

  lemma PressSparesStick(c: Settings, root: real -> real, w: World, idx: nat, sym: nat)
    requires idx < |c.nodes| && !c.nodes[idx].SteerWheel? && PointersAbove(w.s)
    ensures SameStick(w, PressNode(c, root, w, idx, sym))
  {
    hide Pixel, UpdateWheel, NamesKey, HeldDown;
    var w' := PressNode(c, root, w, idx, sym);
    match c.nodes[idx] {
      case Click(_, _, _) => assert |w'.trace| == |w.trace| + 1;
      case ClickTwice(_, _) => assert |w'.trace| == |w.trace| + 1;
      case ClickMulti(_, _) => assert w'.trace == w.trace;
      case Drag(_, _, _) => assert w'.trace == w.trace;
    }
  }

  lemma TaskOnStick(c: Settings, root: real -> real, w: World, idx: nat)
    requires OnlyWheel(c, idx) && StickOk(c, root, w, c.nodes[idx]) && PointersAbove(w.s)
    requires w.tasks != [] && TasksFit(c, w.tasks)
    ensures StickOk(c, root, RunTask(c, root, w), c.nodes[idx])
  {
    var rest, w' := w.(tasks := w.tasks[1..]), RunTask(c, root, w);
    assert StickOk(c, root, rest, c.nodes[idx]);
    match w.tasks[0] {
      case Press(i, sym) =>
        hide StickOk, PressNode, NamesKey;
        if IsWheel(c, i) {
          WheelPoints(c, root, rest.(s := rest.s.(steerKeys := rest.s.steerKeys + {sym})), c.nodes[i]);
          PressOnWheel(c, root, rest, i, sym);
        } else {
          PressSparesStick(c, root, rest, i, sym);
          StickStays(c, root, rest, w', c.nodes[idx]);
        }
      case LetGo(i, sym) =>
        hide StickOk, UpdateWheel;
        if IsWheel(c, i) {
          WheelPoints(c, root, rest.(s := rest.s.(steerKeys := rest.s.steerKeys - {sym})), c.nodes[i]);
        }
      case Recenter(_, _) =>
        hide StickOk;
        StickStays(c, root, rest, w', c.nodes[idx]);
    }
  }

  lemma PressOnWheel(c: Settings, root: real -> real, w: World, idx: nat, sym: nat)
    requires IsWheel(c, idx)
    ensures PressNode(c, root, w, idx, sym)
         == if NamesKey(c.nodes[idx], sym) then
              UpdateWheel(c, root, w.(s := w.s.(steerKeys := w.s.steerKeys + {sym})), c.nodes[idx])
            else w
  {
    hide UpdateWheel, NamesKey;
  }

  lemma AcceptOnStick(c: Settings, root: real -> real, w: World, node: Node, e: Event)
    requires node.SteerWheel? && StickOk(c, root, w, node)
    ensures StickOk(c, root, AcceptEvent(c, w, e), node)
  {
    var w' := AcceptEvent(c, w, e);
    hide Pixel, FreePixel, ClampedPixel, Accumulated, Scan, FirePos, NameToKeysym, ToggleUps, SteerUp, AimUp;
    if e.KeyDown? && e.sym == c.switchSym && w.s.active {
      assert w'.s.steerKeys == {} && !w'.s.steerActive;
    } else {
      assert SameStick(w, w');
      hide StickOk, AcceptEvent;
      StickStays(c, root, w, w', node);
    }
  }

  lemma StepOnStick(c: Settings, root: real -> real, w: World, idx: nat, step: StepKind)
    requires OnlyWheel(c, idx) && StickOk(c, root, w, c.nodes[idx]) && Inv(c, w) && Enabled(c, w, step)
    ensures StickOk(c, root, Step(c, root, w, step), c.nodes[idx])
  {
    assert PointersAbove(w.s);
    match step {
      case Accept(e) =>
        hide StickOk, AcceptEvent, Inv, NameToKeysym;
        AcceptOnStick(c, root, w, c.nodes[idx], e);
      case Continue =>
        hide StickOk, RunTask, Inv;
        TaskOnStick(c, root, w, idx);
      case Thread(i) =>
        ThreadCommand(c, w, i);
        ThreadLeavesEngine(w, i);
        hide StickOk, RunThread, Inv, NodesOk;
        StickStays(c, root, w, RunThread(w, i), c.nodes[idx]);
    }
  }

  lemma {:induction false} RunOnStick(c: Settings, root: real -> real, w: World, steps: seq<StepKind>, w': World, idx: nat)
    requires OnlyWheel(c, idx) && StickOk(c, root, w, c.nodes[idx]) && Inv(c, w) && Run(c, root, w, steps, w')
    ensures StickOk(c, root, w', c.nodes[idx])
    decreases |steps|
  {
    hide OnlyWheel, StickOk, Inv, Enabled, Step;
    if steps != [] {
      StepOnStick(c, root, w, idx, steps[0]);
      StepKeeps(c, root, w, steps[0]);
      RunOnStick(c, root, Step(c, root, w, steps[0]), steps[1..], w', idx);
    }
  }

  /**
   With one wheel, after every run, under every interleaving: between events the steer pointer is down exactly if
   one of the wheel's keys is held, and then was last moved to where the directions held push the stick.
   */
  lemma StickFollowsKeys(c: Settings, root: real -> real, width: Side, height: Side, steps: seq<StepKind>, w: World, idx: nat)
    requires OnlyWheel(c, idx) && Run(c, root, Init(width, height), steps, w) && w.tasks == []
    ensures var node := c.nodes[idx];
            var held := Directions(node, HeldOver(c, root, Init(width, height), steps, w, {}));
            var last := LastOn(w.trace, PTR_STEER);
            && PhaseOf(w.trace, PTR_STEER) == Expected(held.Any())
            && (held.Any() ==> last.Some? && PointsTo(last.value, node.center, Displacement(node.offsets, held, root)))
  {
    hide Steers, Step, Enabled, NameToKeysym, Directions, HeldKeys, HeldOver, PointsTo, Displacement, NamesKey;
    var w0 := Init(width, height);
    InitHolds(c, width, height);
    NothingHeldYet(c, root, w0, c.nodes[idx]);
    KeysAreHeld(c, root, width, height, steps, w);
    DirectionsAre(c, c.nodes[idx], w.s.steerKeys);
    hide Run, Inv;
    RunOnStick(c, root, w0, steps, w, idx);
    RunKeeps(c, root, w0, steps, w);
    LiftedByFlag(c, w);
  }

  lemma NothingHeldYet(c: Settings, root: real -> real, w: World, node: Node)
    requires node.SteerWheel? && w.s.steerKeys == {} && !w.s.steerActive
    ensures StickOk(c, root, w, node)
  {
  }

  /** So a single key pushes the stick by exactly its own offset, to its own side. */
  lemma OneKeyPushes(c: Settings, root: real -> real, width: Side, height: Side, steps: seq<StepKind>, w: World, idx: nat)
    requires OnlyWheel(c, idx) && Run(c, root, Init(width, height), steps, w) && w.tasks == []
    ensures var node := c.nodes[idx];
            var keys := HeldOver(c, root, Init(width, height), steps, w, {});
            var l, r, u, d := Holds(node.leftKey, keys), Holds(node.rightKey, keys), Holds(node.upKey, keys), Holds(node.downKey, keys);
            && (l && !r && !u && !d ==> Pushed(w.trace, node.center.x - node.offsets.left, node.center.y))
            && (r && !l && !u && !d ==> Pushed(w.trace, node.center.x + node.offsets.right, node.center.y))
            && (u && !l && !r && !d ==> Pushed(w.trace, node.center.x, node.center.y - node.offsets.up))
            && (d && !l && !r && !u ==> Pushed(w.trace, node.center.x, node.center.y + node.offsets.down))
  {
    hide Steers, Step, Enabled, NameToKeysym, HeldOver, Displacement, IsNearest, LastOn, PhaseOf, Holds, Run;
    var node := c.nodes[idx];
    hide OnlyWheel;
    StickFollowsKeys(c, root, width, height, steps, w, idx);
    OneDirection(node.offsets, root);
  }

  /** The steer pointer is down and was last moved to the pixel nearest to (x, y). */
  ghost predicate Pushed(trace: Trace, x: real, y: real) {
    var last := LastOn(trace, PTR_STEER);
    && PhaseOf(trace, PTR_STEER) == Pressed
    && last.Some? && last.value.kind == Move && 1 <= last.value.w <= MAX_SIDE && 1 <= last.value.h <= MAX_SIDE
    && IsNearest(last.value.x, x, last.value.w) && IsNearest(last.value.y, y, last.value.h)
  }
}
