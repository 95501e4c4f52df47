/** The engine's main results: what every run, under every interleaving, keeps. */
module EngineRuns {
  import opened Wrappers
  import opened Numbers
  import opened KeyNames
  import opened SteerVector
  import opened UiKeymap
  import opened TouchTrace
  import opened EngineModel
  import opened EngineSafety

  // ----- events keep the invariant -----

  lemma AimCommand(c: Settings, s: State, trace: Trace, threads: seq<Thread>, cmd: Command)
    requires NodesOk(c, s, trace, threads) && OnDisplay(cmd) && cmd.Touch? && cmd.ptr == PTR_AIM
    ensures NodesOk(c, s, trace + [cmd], threads)
    ensures PhaseOf(trace + [cmd], PTR_STEER) == PhaseOf(trace, PTR_STEER)
    ensures PhaseOf(trace + [cmd], PTR_AIM) == Advance(PhaseOf(trace, PTR_AIM), cmd.kind)
  {
    hide NodesOk;
    EmitFixed(c, s, trace, threads, cmd);
    Snoc(trace, cmd, PTR_STEER);
    Snoc(trace, cmd, PTR_AIM);
  }

  lemma AimKeeps(c: Settings, w: World, dx: int, dy: int)
    requires Inv(c, w) && w.tasks == []
    ensures Inv(c, Aim(c, w, dx, dy))
  {
    var s, w' := w.s, Aim(c, w, dx, dy);
    var down := Touch(Down, PTR_AIM, FreePixel(c.mouseCenter.x, s.w), FreePixel(c.mouseCenter.y, s.h), s.w, s.h);
    var move := w'.trace[|w'.trace| - 1];
    var t1 := if s.mouseActive then w.trace else w.trace + [down];
    assert w'.trace == t1 + [move] && OnDisplay(move) && move.kind == Move && move.ptr == PTR_AIM;
    assert w'.tasks != [] ==> w'.tasks[0].Recenter?;
    assert TaskFits(c, w'.s, w'.tasks) && AimNear(w'.s, w'.tasks);
    assert w'.threads == w.threads && w'.s == s.(mouseActive := true, accX := w'.s.accX, accY := w'.s.accY);
    hide NodesOk, ClampedPixel, FreePixel, Aim, PhaseOf, TaskFits, AimNear;
    if !s.mouseActive {
      AimCommand(c, s, w.trace, w.threads, down);
    }
    AimCommand(c, s, t1, w.threads, move);
    NodesFrame(c, s, w'.s, w'.trace, w.threads);
  }

  lemma FireKeeps(c: Settings, w: World, kind: Kind, pos: Pos)
    requires Inv(c, w)
    ensures Inv(c, Emit(w, TouchAt(kind, PTR_FIRE, pos, w.s)))
  {
    var cmd := TouchAt(kind, PTR_FIRE, pos, w.s);
    hide NodesOk;
    EmitFixed(c, w.s, w.trace, w.threads, cmd);
    Snoc(w.trace, cmd, PTR_STEER);
    Snoc(w.trace, cmd, PTR_AIM);
  }

  /** Changing nothing but the mode, the ADS flag, the size, or the tasks. */
  lemma QuietKeeps(c: Settings, w: World, w': World)
    requires Inv(c, w) && w.tasks == []
    requires w'.trace == w.trace && w'.threads == w.threads
    requires w'.s == w.s.(active := w'.s.active, adsActive := w'.s.adsActive, w := w'.s.w, h := w'.s.h)
    requires TasksFit(c, w'.tasks) && forall i :: 0 <= i < |w'.tasks| ==> !w'.tasks[i].Recenter?
    ensures Inv(c, w')
  {
    hide NodesOk;
    NodesFrame(c, w.s, w'.s, w.trace, w.threads);
  }

  lemma SwitchOffKeeps(c: Settings, w: World, order: seq<nat>)
    requires Inv(c, w) && w.tasks == [] && w.s.active && IsWalk(order, w.s.toggles)
    ensures var w' := AcceptEvent(c, w, KeyDown(c.switchSym, order));
            && Inv(c, w') && AllLifted(c, w') && !w'.s.active
            && PhaseOf(w'.trace, PTR_FIRE) == PhaseOf(w.trace, PTR_FIRE)
  {
    var w1 := w.(s := w.s.(active := false));
    hide NodesOk, SteerUp, AimUp, ToggleUps, IsWalk;
    QuietKeeps(c, w, w1);
    assert CoreInv(c, w1);
    ReleaseAllLifts(c, w1, order);
    CoreAgain(c, ReleaseAll(c, w1, order));
    NothingLeft(c, ReleaseAll(c, w1, order).s);
  }

  lemma AcceptKeeps(c: Settings, w: World, e: Event)
    requires Inv(c, w) && Enabled(c, w, Accept(e))
    ensures Inv(c, AcceptEvent(c, w, e))
  {
    hide Inv, Aim, ReleaseAll, TouchAt, Scan;
    match e {
      case KeyDown(sym, order) =>
        if sym == c.switchSym && w.s.active {
          SwitchOffKeeps(c, w, order);
        } else {
          KeyTasksFit(c, true, sym);
          QuietKeeps(c, w, AcceptEvent(c, w, e));
        }
      case KeyUp(sym) =>
        KeyTasksFit(c, false, sym);
        QuietKeeps(c, w, AcceptEvent(c, w, e));
      case MouseDown(_) =>
        if FirePos(c.nodes).Some? {
          FireKeeps(c, w, Down, FirePos(c.nodes).value);
        }
      case MouseUp(_) =>
        if FirePos(c.nodes).Some? {
          FireKeeps(c, w, Up, FirePos(c.nodes).value);
        }
      case MouseMove(dx, dy) =>
        AimKeeps(c, w, dx, dy);
      case Resize(_, _) =>
        QuietKeeps(c, w, AcceptEvent(c, w, e));
    }
  }

  lemma KeyTasksFit(c: Settings, down: bool, sym: nat)
    ensures var ts := KeyTasks(down, Scan(c.nodes, sym), sym);
            TasksFit(c, ts) && forall i :: 0 <= i < |ts| ==> !ts[i].Recenter?
  {
  }

  lemma StepKeeps(c: Settings, root: real -> real, w: World, step: StepKind)
    requires Inv(c, w) && Enabled(c, w, step)
    ensures Inv(c, Step(c, root, w, step))
  {
    hide Inv, AcceptEvent, RunTask, RunThread;
    match step {
      case Accept(e) => AcceptKeeps(c, w, e);
      case Continue => TaskKeeps(c, root, w);
      case Thread(i) => ThreadKeeps(c, w, i);
    }
  }

  lemma InitHolds(c: Settings, w: Side, h: Side)
    ensures Inv(c, Init(w, h))
  {
  }

  lemma {:induction false} RunKeeps(c: Settings, root: real -> real, w: World, steps: seq<StepKind>, w': World)
    requires Inv(c, w) && Run(c, root, w, steps, w')
    ensures Inv(c, w')
    decreases |steps|
  {
    hide Inv, Enabled, Step;
    if steps != [] {
      StepKeeps(c, root, w, steps[0]);
      RunKeeps(c, root, Step(c, root, w, steps[0]), steps[1..], w');
    }
  }

  // ----- main results -----

  /** After every run, whatever the threads did in between, the flags say exactly which pointers the guest sees down. */
  lemma FlagsMatchScreen(c: Settings, root: real -> real, width: Side, height: Side, steps: seq<StepKind>, w: World)
    requires Run(c, root, Init(width, height), steps, w)
    ensures PhaseOf(w.trace, PTR_STEER) == Expected(w.s.steerActive)
    ensures PhaseOf(w.trace, PTR_AIM) == Expected(w.s.mouseActive)
    ensures forall i :: i in w.s.pointers && i < |c.nodes| && c.nodes[i].ClickTwice?
              ==> PhaseOf(w.trace, w.s.pointers[i]) == Expected(HeldDown(w.s, i))
    ensures forall i: nat :: HeldDown(w.s, i) ==> i in w.s.pointers && i < |c.nodes| && c.nodes[i].ClickTwice?
  {
    InitHolds(c, width, height);
    RunKeeps(c, root, Init(width, height), steps, w);
    forall i | i in w.s.pointers && i < |c.nodes| && c.nodes[i].ClickTwice?
      ensures PhaseOf(w.trace, w.s.pointers[i]) == Expected(HeldDown(w.s, i))
    {
      assert ToggleTruthful(c, w.s, w.trace, i);
    }
  }

  /** Pressing the switch key while active lifts every pointer a flag speaks for, and leaves the fire pointer as it was. */
  lemma SwitchOffLiftsAll(c: Settings, root: real -> real, width: Side, height: Side, steps: seq<StepKind>, w: World,
                          order: seq<nat>)
    requires Run(c, root, Init(width, height), steps, w)
    requires w.s.active && Enabled(c, w, Accept(KeyDown(c.switchSym, order)))
    ensures var w' := Step(c, root, w, Accept(KeyDown(c.switchSym, order)));
            && !w'.s.active && AllLifted(c, w')
            && PhaseOf(w'.trace, PTR_FIRE) == PhaseOf(w.trace, PTR_FIRE)
            && w'.s.pointers == w.s.pointers && w'.threads == w.threads
  {
    InitHolds(c, width, height);
    RunKeeps(c, root, Init(width, height), steps, w);
    hide Inv, AllLifted, IsWalk;
    SwitchOffKeeps(c, w, order);
  }

  /** Every down of a click or drag pointer is matched by an up or by a thread that still owes one. */
  lemma ReleasesAccountedFor(c: Settings, root: real -> real, width: Side, height: Side, steps: seq<StepKind>, w: World,
                             idx: nat)
    requires Run(c, root, Init(width, height), steps, w)
    requires idx in w.s.pointers && idx < |c.nodes| && Threaded(c.nodes[idx])
    ensures Balance(w.trace, w.s.pointers[idx]) == Pending(w.threads, w.s.pointers[idx])
    ensures Pending(w.threads, w.s.pointers[idx]) == 0 ==> LastKind(w.trace, w.s.pointers[idx]) in {None, Some(Up)}
  {
    InitHolds(c, width, height);
    RunKeeps(c, root, Init(width, height), steps, w);
    assert Settled(w.s, w.trace, w.threads, idx);
    if LastKind(w.trace, w.s.pointers[idx]).Some? {
      var k := LastKind(w.trace, w.s.pointers[idx]).value;
      assert k == Down || k == Move || k == Up;
    }
  }

  /** All commands but aim's touch-down and lifts fall on the display they were computed for. */
  lemma CommandsOnDisplay(c: Settings, root: real -> real, width: Side, height: Side, steps: seq<StepKind>, w: World, i: nat)
    requires Run(c, root, Init(width, height), steps, w) && i < |w.trace|
    ensures (w.trace[i].Touch? && w.trace[i].ptr == PTR_AIM && w.trace[i].kind != Move)
         || (w.trace[i].x < w.trace[i].w && w.trace[i].y < w.trace[i].h)
  {
    InitHolds(c, width, height);
    RunKeeps(c, root, Init(width, height), steps, w);
    assert OnDisplay(w.trace[i]);
  }

  /** Between events the accumulated aim is inside the dead zone. */
  lemma AimStaysNear(c: Settings, root: real -> real, width: Side, height: Side, steps: seq<StepKind>, w: World)
    requires Run(c, root, Init(width, height), steps, w) && w.tasks == []
    ensures -0.3 <= w.s.accX <= 0.3 && -0.3 <= w.s.accY <= 0.3
  {
    InitHolds(c, width, height);
    RunKeeps(c, root, Init(width, height), steps, w);
    assert AimNear(w.s, w.tasks);
  }

  // ----- pointer ids -----

  ghost predicate Extends(a: map<nat, nat>, b: map<nat, nat>) {
    forall i :: i in a ==> i in b && b[i] == a[i]
  }

  lemma WheelChangesOnly(c: Settings, root: real -> real, w: World, node: Node)
    requires node.SteerWheel?
    ensures UpdateWheel(c, root, w, node).s == w.s.(steerActive := HeldKeys(node, w.s.steerKeys).Any())
  {
    hide Displacement, TouchAt, HeldKeys;
  }

  lemma TaskKeepsPointers(c: Settings, root: real -> real, w: World)
    requires w.tasks != [] && TasksFit(c, w.tasks)
    ensures Extends(w.s.pointers, RunTask(c, root, w).s.pointers)
  {
    hide TouchAt, Pixel, NamesKey, UpdateWheel;
    var rest := w.(tasks := w.tasks[1..]);
    match w.tasks[0] {
      case Press(idx, sym) =>
        if c.nodes[idx].SteerWheel? {
          WheelChangesOnly(c, root, rest.(s := rest.s.(steerKeys := rest.s.steerKeys + {sym})), c.nodes[idx]);
        }
      case LetGo(idx, sym) =>
        if c.nodes[idx].SteerWheel? {
          WheelChangesOnly(c, root, rest.(s := rest.s.(steerKeys := rest.s.steerKeys - {sym})), c.nodes[idx]);
        }
      case Recenter(_, _) =>
    }
  }

  lemma StepKeepsPointers(c: Settings, root: real -> real, w: World, step: StepKind)
    requires Enabled(c, w, step)
    ensures Extends(w.s.pointers, Step(c, root, w, step).s.pointers)
  {
    hide RunTask, TouchAt, Scan, IsWalk;
    if step.Continue? {
      TaskKeepsPointers(c, root, w);
    }
  }

  lemma {:induction false} RunKeepsPointers(c: Settings, root: real -> real, w: World, steps: seq<StepKind>, w': World)
    requires Run(c, root, w, steps, w')
    ensures Extends(w.s.pointers, w'.s.pointers)
    decreases |steps|
  {
    hide Enabled, Step;
    if steps != [] {
      StepKeepsPointers(c, root, w, steps[0]);
      RunKeepsPointers(c, root, Step(c, root, w, steps[0]), steps[1..], w');
    }
  }

  /** Once assigned, a node's pointer never changes; no two nodes share one, and none is steer, aim or fire. */
  lemma PointersFixedForEver(c: Settings, root: real -> real, width: Side, height: Side,
                             steps: seq<StepKind>, w: World, more: seq<StepKind>, w': World, i: nat, j: nat)
    requires Run(c, root, Init(width, height), steps, w) && Run(c, root, w, more, w')
    requires i in w.s.pointers
    ensures i in w'.s.pointers && w'.s.pointers[i] == w.s.pointers[i]
    ensures w.s.pointers[i] !in {PTR_STEER, PTR_AIM, PTR_FIRE}
    ensures j in w'.s.pointers && j != i ==> w'.s.pointers[j] != w'.s.pointers[i]
  {
    InitHolds(c, width, height);
    RunKeeps(c, root, Init(width, height), steps, w);
    RunKeeps(c, root, w, more, w');
    RunKeepsPointers(c, root, w, more, w');
  }

  // ----- turning the map off by a click node -----

  predicate HasSwitchMap(c: Settings) {
    exists i :: 0 <= i < |c.nodes| && c.nodes[i].Click? && c.nodes[i].switchMap
  }

  /** No flag speaks for a pointer that is down. */
  ghost predicate NothingHeld(s: State) {
    !s.steerActive && !s.mouseActive && forall i: nat :: !HeldDown(s, i)
  }

  lemma TogglesLiftedIff(c: Settings, w: World)
    requires NodesOk(c, w.s, w.trace, w.threads)
    ensures (forall i :: i in w.s.pointers && i < |c.nodes| && c.nodes[i].ClickTwice? ==> PhaseOf(w.trace, w.s.pointers[i]) == Lifted)
       <==> (forall i: nat :: !HeldDown(w.s, i))
  {
    forall i: nat
      ensures HeldDown(w.s, i) ==> i in w.s.pointers && PhaseOf(w.trace, w.s.pointers[i]) == Pressed
      ensures i in w.s.pointers && i < |c.nodes| && c.nodes[i].ClickTwice? && !HeldDown(w.s, i)
          ==> PhaseOf(w.trace, w.s.pointers[i]) == Lifted
    {
      if i in w.s.pointers {
        assert ToggleTruthful(c, w.s, w.trace, i);
      }
    }
    if i: nat :| HeldDown(w.s, i) {
      assert i in w.s.pointers && c.nodes[i].ClickTwice?;
    }
  }

  lemma LiftedIffNothingHeld(c: Settings, w: World)
    requires CoreInv(c, w)
    ensures AllLifted(c, w) <==> NothingHeld(w.s)
  {
    TogglesLiftedIff(c, w);
    hide NodesOk, PhaseOf, HeldDown;
  }

  lemma ClickChangesOnly(c: Settings, w: World, idx: nat)
    requires idx < |c.nodes| && c.nodes[idx].Click?
    ensures var s, s' := w.s, PressClick(c, w, idx).s;
            && (NothingHeld(s) <==> NothingHeld(s'))
            && s'.active == (s.active && !c.nodes[idx].switchMap)
  {
    hide TouchAt;
    var s, s' := w.s, PressClick(c, w, idx).s;
    assert s'.toggles == s.toggles && s'.steerActive == s.steerActive && s'.mouseActive == s.mouseActive;
    assert forall i: nat :: HeldDown(s, i) <==> HeldDown(s', i);
  }

  /**
   A click node with `switchMap` turns the map off without releasing anything: afterwards everything is
   lifted exactly when neither the wheel nor aim nor any click-twice node was down when its key was pressed.
   */
  lemma SwitchMapReleasesNothing(c: Settings, w: World, idx: nat)
    requires CoreInv(c, w) && idx < |c.nodes| && c.nodes[idx].Click? && c.nodes[idx].switchMap
    ensures !PressClick(c, w, idx).s.active
    ensures AllLifted(c, PressClick(c, w, idx)) <==> NothingHeld(w.s)
  {
    hide PressClick, CoreInv, AllLifted, NothingHeld;
    ClickChangesOnly(c, w, idx);
    ClickKeeps(c, w, idx);
    LiftedIffNothingHeld(c, PressClick(c, w, idx));
  }

  /** Off means released: no flag is set while the map is inactive. */
  ghost predicate QuietWhenOff(w: World) {
    && (w.tasks != [] ==> w.s.active)
    && (!w.s.active ==> !w.s.steerActive && !w.s.mouseActive && w.s.toggles == map[])
  }

  lemma TaskLeavesMode(c: Settings, root: real -> real, w: World)
    requires w.tasks != [] && TasksFit(c, w.tasks) && !HasSwitchMap(c)
    ensures RunTask(c, root, w).s.active == w.s.active
  {
    hide TouchAt, Pixel, NamesKey, UpdateWheel;
    var rest := w.(tasks := w.tasks[1..]);
    match w.tasks[0] {
      case Press(idx, sym) =>
        if c.nodes[idx].SteerWheel? {
          WheelChangesOnly(c, root, rest.(s := rest.s.(steerKeys := rest.s.steerKeys + {sym})), c.nodes[idx]);
        }
      case LetGo(idx, sym) =>
        if c.nodes[idx].SteerWheel? {
          WheelChangesOnly(c, root, rest.(s := rest.s.(steerKeys := rest.s.steerKeys - {sym})), c.nodes[idx]);
        }
      case Recenter(_, _) =>
    }
  }

  lemma StepKeepsQuiet(c: Settings, root: real -> real, w: World, step: StepKind)
    requires Enabled(c, w, step) && QuietWhenOff(w) && !HasSwitchMap(c)
    ensures QuietWhenOff(Step(c, root, w, step))
  {
    hide RunTask, TouchAt, Scan, IsWalk, HasSwitchMap, SteerUp, AimUp, ToggleUps, ClampedPixel, FreePixel;
    if step.Continue? {
      TaskLeavesMode(c, root, w);
    }
  }

  lemma {:induction false} RunKeepsQuiet(c: Settings, root: real -> real, w: World, steps: seq<StepKind>, w': World)
    requires Run(c, root, w, steps, w') && QuietWhenOff(w) && !HasSwitchMap(c)
    ensures QuietWhenOff(w')
    decreases |steps|
  {
    hide Enabled, Step, HasSwitchMap, QuietWhenOff;
    if steps != [] {
      StepKeepsQuiet(c, root, w, steps[0]);
      RunKeepsQuiet(c, root, Step(c, root, w, steps[0]), steps[1..], w');
    }
  }

  /** Without `switchMap` nodes, nothing a flag speaks for is down whenever the map is inactive. */
  lemma InactiveMeansReleased(c: Settings, root: real -> real, width: Side, height: Side, steps: seq<StepKind>, w: World)
    requires Run(c, root, Init(width, height), steps, w) && !HasSwitchMap(c) && !w.s.active
    ensures AllLifted(c, w)
  {
    FlagsMatchScreen(c, root, width, height, steps, w);
    RunKeepsQuiet(c, root, Init(width, height), steps, w);
  }

  lemma OneStep(c: Settings, root: real -> real, w: World, step: StepKind, more: seq<StepKind>, w': World)
    requires Enabled(c, w, step) && Run(c, root, Step(c, root, w, step), more, w')
    ensures Run(c, root, w, [step] + more, w')
  {
    hide Enabled, Step;
    assert ([step] + more)[1..] == more;
  }

  // ----- which keys the wheel hears -----

  /** A name by which a wheel's key handler recognises sym: a recognised spelling of it, or the hexadecimal name of a keysym without one. */
  predicate Recognises(name: string, sym: nat) {
    (NameToKeysym(name) == Some(sym) && Recognised(name)) || (!Named(sym) && name == HexName(sym))
  }

  lemma RecognisesIff(name: string, sym: nat)
    ensures Recognises(name, sym) <==> name == KeysymToName(sym)
  {
    hide NameToKeysym, KeysymToName, Recognised, Named, HexName;
    NamesResolve(sym);
    if NameToKeysym(name) == Some(sym) {
      ComesBackIff(name, sym);
    }
  }

  /** A wheel hears a key exactly when one of its four names is one by which that key is recognised. */
  lemma WheelHearsIff(node: Node, sym: nat)
    requires node.SteerWheel?
    ensures NamesKey(node, sym) <==> exists k :: k in NodeKeys(node) && Recognises(k, sym)
  {
    hide KeysymToName, Recognises;
    var keys := NodeKeys(node);
    assert keys[0] == node.leftKey && keys[1] == node.rightKey && keys[2] == node.upKey && keys[3] == node.downKey;
    RecognisesIff(KeysymToName(sym), sym);
    if k :| k in keys && Recognises(k, sym) {
      RecognisesIff(k, sym);
    }
  }

  lemma {:induction false} ScannedIff(nodes: seq<Node>, idx: nat, sym: nat)
    requires idx < |nodes|
    ensures idx in Scan(nodes, sym) <==> exists k :: k in NodeKeys(nodes[idx]) && NameToKeysym(k) == Some(sym)
  {
    hide NameToKeysym, NodeKeys;
    var last := |nodes| - 1;
    var before, hits := Scan(nodes[..last], sym), Hits(NodeKeys(nodes[last]), last, sym);
    assert Scan(nodes, sym) == before + hits;
    if idx < last {
      ScannedIff(nodes[..last], idx, sym);
    } else {
      assert idx !in before;
      if k :| k in NodeKeys(nodes[idx]) && NameToKeysym(k) == Some(sym) {
        assert hits != [] && hits[0] == last;
      }
    }
  }

  /** A pressed key moves a wheel exactly when one of the wheel's names resolves to it and one, perhaps another, is one it is recognised by. */
  lemma WheelRespondsIff(c: Settings, idx: nat, sym: nat)
    requires idx < |c.nodes| && c.nodes[idx].SteerWheel?
    ensures idx in Scan(c.nodes, sym) && NamesKey(c.nodes[idx], sym)
       <==> ((exists k :: k in NodeKeys(c.nodes[idx]) && NameToKeysym(k) == Some(sym))
             && (exists k :: k in NodeKeys(c.nodes[idx]) && Recognises(k, sym)))
  {
    hide NameToKeysym, Recognises, NodeKeys, NamesKey, Scan;
    ScannedIff(c.nodes, idx, sym);
    WheelHearsIff(c.nodes[idx], sym);
  }

  /** A wheel with neither a recognised spelling nor a hexadecimal name ignores every key, resolved or not. */
  lemma DeafWheel(c: Settings, root: real -> real, w: World, idx: nat, sym: nat)
    requires idx < |c.nodes| && c.nodes[idx].SteerWheel?
    requires forall k :: k in NodeKeys(c.nodes[idx]) ==> !Recognised(k) && !("0x" <= k)
    ensures PressNode(c, root, w, idx, sym) == w
  {
    hide NameToKeysym, KeysymToName, Recognised, NamesKey, NodeKeys, HexDigits;
    WheelHearsIff(c.nodes[idx], sym);
  }
}
