/** The engine as the program runs it: an object whose handlers change its fields and take the socket's lock per command. */
module KeymapEngine {
  import opened Wrappers
  import opened Numbers
  import opened KeyNames
  import opened Products
  import opened SteerVector
  import opened UiKeymap
  import opened TouchTrace
  import opened EngineModel
  import EngineSafety
  import EngineRuns

  // ----- runs that take in a given sequence of events -----

  function EventsOf(steps: seq<StepKind>): seq<Event> {
    if steps == [] then []
    else (if steps[0].Accept? then [steps[0].e] else []) + EventsOf(steps[1..])
  }

  lemma {:induction false} EventsJoin(a: seq<StepKind>, b: seq<StepKind>)
    ensures EventsOf(a + b) == EventsOf(a) + EventsOf(b)
  {
    if a == [] {
      assert a + b == b;
    } else {
      var first := if a[0].Accept? then [a[0].e] else [];
      assert (a + b)[0] == a[0] && (a + b)[1..] == a[1..] + b;
      EventsJoin(a[1..], b);
      JoinThree(first, EventsOf(a[1..]), EventsOf(b));
    }
  }

  lemma JoinThree(a: seq<Event>, b: seq<Event>, d: seq<Event>)
    ensures a + (b + d) == a + b + d
  {
  }

  lemma {:induction false} RunJoin(c: Settings, root: real -> real, w: World, a: seq<StepKind>, m: World, b: seq<StepKind>, w': World)
    requires Run(c, root, w, a, m) && Run(c, root, m, b, w')
    ensures Run(c, root, w, a + b, w')
    decreases |a|
  {
    hide Enabled, Step;
    if a == [] {
      assert a + b == b;
    } else {
      assert (a + b)[1..] == a[1..] + b;
      RunJoin(c, root, Step(c, root, w, a[0]), a[1..], m, b, w');
    }
  }

  /** Some run from w to w' takes in exactly these events, in this order. */
  ghost predicate Reaches(c: Settings, root: real -> real, w: World, events: seq<Event>, w': World) {
    exists steps :: Run(c, root, w, steps, w') && EventsOf(steps) == events
  }

  lemma ReachesSelf(c: Settings, root: real -> real, w: World)
    ensures Reaches(c, root, w, [], w)
  {
    assert Run(c, root, w, [], w) && EventsOf([]) == [];
  }

  lemma ReachesThrough(c: Settings, root: real -> real, w: World, a: seq<Event>, m: World, b: seq<Event>, w': World)
    requires Reaches(c, root, w, a, m) && Reaches(c, root, m, b, w')
    ensures Reaches(c, root, w, a + b, w')
  {
    var s :| Run(c, root, w, s, m) && EventsOf(s) == a;
    var t :| Run(c, root, m, t, w') && EventsOf(t) == b;
    hide Run;
    RunJoin(c, root, w, s, m, t, w');
    EventsJoin(s, t);
  }

  lemma ReachesNext(c: Settings, root: real -> real, w: World, a: seq<Event>, m: World, step: StepKind)
    requires Reaches(c, root, w, a, m) && Enabled(c, m, step)
    ensures Reaches(c, root, w, a + if step.Accept? then [step.e] else [], Step(c, root, m, step))
  {
    hide Enabled, Step;
    var w', b := Step(c, root, m, step), if step.Accept? then [step.e] else [];
    assert Run(c, root, w', [], w');
    EngineRuns.OneStep(c, root, m, step, [], w');
    assert [step] + [] == [step] && EventsOf([step]) == b + EventsOf([]) == b;
    assert Reaches(c, root, m, b, w');
    hide Reaches;
    ReachesThrough(c, root, w, a, m, b, w');
  }

  lemma ReachesQuietly(c: Settings, root: real -> real, w: World, a: seq<Event>, m: World, w': World)
    requires Reaches(c, root, w, a, m) && Reaches(c, root, m, [], w')
    ensures Reaches(c, root, w, a, w')
  {
    hide Reaches;
    ReachesThrough(c, root, w, a, m, [], w');
    assert a + [] == a;
  }

  /** One more step that takes in no event. */
  lemma ReachesOn(c: Settings, root: real -> real, w: World, a: seq<Event>, m: World, step: StepKind)
    requires Reaches(c, root, w, a, m) && Enabled(c, m, step) && !step.Accept?
    ensures Reaches(c, root, w, a, Step(c, root, m, step))
  {
    hide Reaches, Enabled, Step;
    ReachesNext(c, root, w, a, m, step);
    assert a + [] == a;
  }

  /** The first event of a run that so far has only let threads run. */
  lemma ReachesFirst(c: Settings, root: real -> real, w: World, m: World, e: Event)
    requires Reaches(c, root, w, [], m) && Enabled(c, m, Accept(e))
    ensures Reaches(c, root, w, [e], AcceptEvent(c, m, e))
  {
    hide Reaches, Enabled, AcceptEvent;
    ReachesNext(c, root, w, [], m, Accept(e));
    assert [] + [e] == [e];
  }

  // ----- the shared socket -----

  /** The control socket with the commands sent on it, and the threads that will still take its lock. */
  class Control {
    var sent: Trace
    var threads: seq<Thread>

    constructor ()
      ensures sent == [] && threads == []
    {
      sent, threads := [], [];
    }

    ghost function World(s: State, tasks: seq<Task>): World
      reads this
    {
      EngineModel.World(s, tasks, sent, threads)
    }

    /** Waiting for the lock: any threads may get it first, any number of times. */
    method Lock(ghost c: Settings, ghost root: real -> real, ghost s: State, ghost tasks: seq<Task>)
      modifies this
      ensures Reaches(c, root, old(World(s, tasks)), [], World(s, tasks))
    {
      ReachesSelf(c, root, World(s, tasks));
      var turns: nat := *;
      hide Reaches, RunThread;
      while turns > 0
        invariant Reaches(c, root, old(World(s, tasks)), [], World(s, tasks))
      {
        var i: nat := *;
        if i < |threads| {
          var idle := Init(1, 1).(trace := sent, threads := threads);
          var w := RunThread(idle, i);
          ReachesOn(c, root, old(World(s, tasks)), [], World(s, tasks), Thread(i));
          ThreadIgnoresEngine(World(s, tasks), idle, i);
          sent, threads := w.trace, w.threads;
        }
        turns := turns - 1;
      }
    }

    method Send(cmd: Command)
      modifies `sent
      ensures sent == old(sent) + [cmd]
    {
      sent := sent + [cmd];
    }

    method Spawn(t: Thread)
      modifies `threads
      ensures threads == old(threads) + [t]
    {
      threads := threads + [t];
    }
  }

  /** A thread sees the socket, never the engine. */
  lemma ThreadIgnoresEngine(w: World, v: World, i: nat)
    requires i < |w.threads| && v.trace == w.trace && v.threads == w.threads
    ensures RunThread(w, i) == RunThread(v, i).(s := w.s, tasks := w.tasks)
  {
  }

  // ----- the engine -----

  method FindWheel(nodes: seq<Node>) returns (center: Pos, offsets: Offsets)
    ensures (center, offsets) == FirstWheel(nodes)
  {
    center, offsets := Pos(0.0, 0.0), NO_OFFSETS;
    var i := 0;
    while i < |nodes|
      invariant 0 <= i <= |nodes|
      invariant (center, offsets) == (Pos(0.0, 0.0), NO_OFFSETS)
      invariant FirstWheel(nodes) == FirstWheel(nodes[i..])
    {
      if nodes[i].SteerWheel? {
        return nodes[i].center, nodes[i].offsets;
      }
      i := i + 1;
    }
  }

  method FindFire(nodes: seq<Node>) returns (pos: Option<Pos>)
    ensures pos == FirePos(nodes)
  {
    pos := None;
    var i := 0;
    while i < |nodes|
      invariant 0 <= i <= |nodes| && pos == None
      invariant FirePos(nodes) == FirePos(nodes[i..])
    {
      if nodes[i].Click? && nodes[i].key == "Mouse_Left" {
        return Some(nodes[i].pos);
      }
      i := i + 1;
    }
  }

  class Engine {
    const settings: Settings
    const root: real -> real
    const keyLookup: map<nat, seq<nat>>
    var active: bool
    var dispW: Side
    var dispH: Side
    var steerActive: bool
    var steerKeys: set<nat>
    var toggleState: map<nat, bool>
    var mouseActive: bool
    var mouseAccumX: real
    var mouseAccumY: real
    var adsActive: bool
    var nodePointer: map<nat, nat>
    var nextPointer: nat

    function Snapshot(): State
      reads this
    {
      State(active, dispW, dispH, steerActive, steerKeys, toggleState, mouseActive, mouseAccumX, mouseAccumY,
            adsActive, nodePointer, nextPointer)
    }

    /** The lookup table answers as a scan of the nodes does. */
    ghost predicate Indexed() {
      NoEmptyEntry(keyLookup) && forall k: nat :: Entry(keyLookup, k) == Scan(settings.nodes, k)
    }

    constructor (config: KeymapConfig, root: real -> real, w: Side, h: Side)
      ensures settings == Setup(config) && this.root == root && Indexed()
      ensures Snapshot() == Init(w, h).s
    {
      var table := BuildKeyLookup(config.nodes);
      var center, offsets := FindWheel(config.nodes);
      keyLookup := table;
      settings := Setup(config).(steerCenter := center, steerOffsets := offsets);
      this.root := root;
      active, dispW, dispH, steerActive, steerKeys, toggleState := false, w, h, false, {}, map[];
      mouseActive, mouseAccumX, mouseAccumY, adsActive, nodePointer, nextPointer := false, 0.0, 0.0, false, map[], PTR_BASE;
      new;
      assert forall k: nat :: Entry(keyLookup, k) == Entry(table, k);
    }

    method SetDisplaySize(w: Side, h: Side)
      modifies `dispW, `dispH
      ensures Snapshot() == old(Snapshot()).(w := w, h := h)
      ensures Snapshot() == AcceptEvent(settings, EngineModel.World(old(Snapshot()), [], [], []), Resize(w, h)).s
    {
      dispW, dispH := w, h;
    }

    function ToPx(pos: Pos): (nat, nat)
      reads this
    {
      (Pixel(pos.x, dispW), Pixel(pos.y, dispH))
    }

    method PointerFor(idx: nat) returns (ptr: nat)
      modifies `nodePointer, `nextPointer
      ensures (Snapshot(), ptr) == EngineModel.PointerFor(old(Snapshot()), idx)
    {
      if idx !in nodePointer {
        nodePointer := nodePointer[idx := nextPointer];
        nextPointer := nextPointer + 1;
      }
      ptr := nodePointer[idx];
    }

    // ----- the wheel and the releases -----

    /** The stick's displacement, direction by direction. */
    method Stick(held: Held) returns (d: Pos)
      ensures d == Displacement(settings.steerOffsets, held, root)
    {
      hide Mul, Square, MaxOffset;
      var o := settings.steerOffsets;
      var ox, oy := 0.0, 0.0;
      if held.left {
        ox := ox - o.left;
      }
      if held.right {
        ox := ox + o.right;
      }
      if held.up {
        oy := oy - o.up;
      }
      if held.down {
        oy := oy + o.down;
      }
      if ox != 0.0 && oy != 0.0 {
        var len := root(SquaredLength(Pos(ox, oy)));
        var maxLen := MaxOffset(o);
        if len > maxLen && len != 0.0 {
          ox, oy := Mul(ox / len, maxLen), Mul(oy / len, maxLen);
        }
      }
      d := Pos(ox, oy);
    }

    method DirectionsHeld(node: Node) returns (held: Held)
      requires node.SteerWheel?
      ensures held == HeldKeys(node, steerKeys)
    {
      hide NameToKeysym;
      var left := SymOr(node.leftKey, 0);
      var right := SymOr(node.rightKey, 0);
      var up := SymOr(node.upKey, 0);
      var down := SymOr(node.downKey, 0);
      held := Held(left in steerKeys, right in steerKeys, up in steerKeys, down in steerKeys);
    }

    /** `before` and `tasks` are the engine's state and work when it began on this key's node; m is where the lock was got. */
    method UpdateSteerWheel(control: Control, node: Node, ghost before: State, ghost tasks: seq<Task>) returns (ghost m: World)
      requires node.SteerWheel? && tasks != []
      modifies `steerActive, control
      ensures Reaches(settings, root, old(control.World(before, tasks)), [], m) && m.s == before && m.tasks == tasks
      ensures control.World(Snapshot(), tasks[1..])
           == UpdateWheel(settings, root, m.(s := old(Snapshot()), tasks := tasks[1..]), node)
    {
      hide Reaches, Displacement, Pixel, HeldKeys;
      m := control.World(before, tasks);
      ReachesSelf(settings, root, m);
      var held := DirectionsHeld(node);
      var any := held.Any();
      var (cx, cy) := ToPx(settings.steerCenter);
      if !any && steerActive {
        control.Lock(settings, root, before, tasks);
        m := control.World(before, tasks);
        control.Send(Touch(Up, PTR_STEER, cx, cy, dispW, dispH));
        steerActive := false;
        return;
      }
      if !any {
        return;
      }
      var d := Stick(held);
      var (tx, ty) := ToPx(Pos(settings.steerCenter.x + d.x, settings.steerCenter.y + d.y));
      control.Lock(settings, root, before, tasks);
      m := control.World(before, tasks);
      if !steerActive {
        control.Send(Touch(Down, PTR_STEER, cx, cy, dispW, dispH));
        steerActive := true;
      }
      control.Send(Touch(Move, PTR_STEER, tx, ty, dispW, dispH));
    }

    method ReleaseToggle(control: Control, idx: nat)
      requires idx in toggleState
      modifies control`sent
      ensures control.sent == old(control.sent) + EngineSafety.ToggleUp(settings, Snapshot(), idx)
    {
      hide Pixel;
      if toggleState[idx] {
        if idx < |settings.nodes| {
          if settings.nodes[idx].ClickTwice? {
            var (px, py) := ToPx(settings.nodes[idx].pos);
            var ptr := if idx in nodePointer then nodePointer[idx] else PTR_BASE;
            control.Send(Touch(Up, ptr, px, py, dispW, dispH));
          }
        }
      }
    }

    /** Lifts the held toggles in whatever order the table yields them. */
    method ReleaseToggles(control: Control) returns (order: seq<nat>)
      modifies control`sent
      ensures IsWalk(order, toggleState)
      ensures control.sent == old(control.sent) + ToggleUps(settings, Snapshot(), order)
    {
      hide EngineSafety.ToggleUp, ToggleUps;
      order := [];
      var todo := toggleState.Keys;
      NoUpsYet(settings, Snapshot(), control.sent);
      while todo != {}
        invariant Walked(order, todo, toggleState)
        invariant control.sent == old(control.sent) + ToggleUps(settings, Snapshot(), order)
      {
        var idx :| idx in todo;
        ReleaseToggle(control, idx);
        WalkOn(order, todo, toggleState, idx);
        OneMoreUp(settings, Snapshot(), old(control.sent), order, idx);
        order, todo := order + [idx], todo - {idx};
      }
    }

    method ReleaseFixed(control: Control)
      modifies control`sent
      ensures control.sent == old(control.sent) + SteerUp(settings, Snapshot()) + AimUp(settings, Snapshot())
    {
      hide Pixel;
      if steerActive {
        var (cx, cy) := ToPx(settings.steerCenter);
        control.Send(Touch(Up, PTR_STEER, cx, cy, dispW, dispH));
      }
      assert control.sent == old(control.sent) + SteerUp(settings, Snapshot());
      if mouseActive {
        var cx, cy := FreePixel(settings.mouseCenter.x, dispW), FreePixel(settings.mouseCenter.y, dispH);
        control.Send(Touch(Up, PTR_AIM, cx, cy, dispW, dispH));
      }
    }

    method ReleaseAll(control: Control, ghost before: State) returns (ghost m: World, order: seq<nat>)
      modifies `steerActive, `steerKeys, `mouseActive, `mouseAccumX, `mouseAccumY, `toggleState, `adsActive, control
      ensures Reaches(settings, root, old(control.World(before, [])), [], m) && m.s == before && m.tasks == []
      ensures IsWalk(order, old(toggleState))
      ensures control.World(Snapshot(), []) == EngineModel.ReleaseAll(settings, m.(s := old(Snapshot())), order)
    {
      hide Reaches, Pixel, ToggleUps, IsWalk;
      control.Lock(settings, root, before, []);
      m := control.World(before, []);
      ReleaseFixed(control);
      hide SteerUp, AimUp;
      order := ReleaseToggles(control);
      steerActive, steerKeys, mouseActive := false, {}, false;
      mouseAccumX, mouseAccumY, toggleState, adsActive := 0.0, 0.0, map[], false;
    }

    // ----- one node of a key press -----

    method PressClick(control: Control, idx: nat, ghost tasks: seq<Task>) returns (ghost m: World)
      requires idx < |settings.nodes| && settings.nodes[idx].Click? && tasks != []
      modifies `active, `nodePointer, `nextPointer, control
      ensures Reaches(settings, root, old(control.World(Snapshot(), tasks)), [], m)
      ensures m.s == old(Snapshot()) && m.tasks == tasks
      ensures control.World(Snapshot(), tasks[1..]) == EngineModel.PressClick(settings, m.(tasks := tasks[1..]), idx)
    {
      hide Reaches, Pixel;
      ghost var before := Snapshot();
      var node := settings.nodes[idx];
      var (px, py) := ToPx(node.pos);
      var ptr := PointerFor(idx);
      control.Lock(settings, root, before, tasks);
      m := control.World(before, tasks);
      control.Send(Touch(Down, ptr, px, py, dispW, dispH));
      control.Spawn(Release(ptr, px, py, dispW, dispH));
      if node.switchMap {
        active := false;
      }
    }

    /** The node's entry, false on first use, is flipped. */
    method FlipToggle(control: Control, idx: nat, ptr: nat, px: nat, py: nat)
      modifies `toggleState, control`sent
      ensures toggleState == old(toggleState[idx := !HeldDown(Snapshot(), idx)])
      ensures control.sent == old(control.sent)
                              + [Touch(if old(HeldDown(Snapshot(), idx)) then Up else Down, ptr, px, py, dispW, dispH)]
    {
      if idx !in toggleState {
        toggleState := toggleState[idx := false];
      }
      if toggleState[idx] {
        control.Send(Touch(Up, ptr, px, py, dispW, dispH));
        toggleState := toggleState[idx := false];
      } else {
        control.Send(Touch(Down, ptr, px, py, dispW, dispH));
        toggleState := toggleState[idx := true];
      }
    }

    method PressToggle(control: Control, idx: nat, ghost tasks: seq<Task>) returns (ghost m: World)
      requires idx < |settings.nodes| && settings.nodes[idx].ClickTwice? && tasks != []
      modifies `toggleState, `nodePointer, `nextPointer, control
      ensures Reaches(settings, root, old(control.World(Snapshot(), tasks)), [], m)
      ensures m.s == old(Snapshot()) && m.tasks == tasks
      ensures control.World(Snapshot(), tasks[1..]) == EngineModel.PressToggle(settings, m.(tasks := tasks[1..]), idx)
    {
      hide Reaches, Pixel;
      ghost var before := Snapshot();
      var (px, py) := ToPx(settings.nodes[idx].pos);
      var ptr := PointerFor(idx);
      hide EngineModel.PointerFor, HeldDown;
      ghost var s1 := Snapshot();
      assert (s1, ptr) == EngineModel.PointerFor(before, idx);
      control.Lock(settings, root, before, tasks);
      m := control.World(before, tasks);
      FlipToggle(control, idx, ptr, px, py);
    }

    /** Starting a drag takes no lock: its thread sends everything. */
    method PressDrag(control: Control, idx: nat, ghost tasks: seq<Task>)
      requires idx < |settings.nodes| && settings.nodes[idx].Drag?
      modifies `nodePointer, `nextPointer, control`threads
      ensures control.World(Snapshot(), tasks) == EngineModel.PressDrag(settings, old(control.World(Snapshot(), tasks)), idx)
    {
      hide Pixel;
      var node := settings.nodes[idx];
      var (sx, sy) := ToPx(node.start);
      var (ex, ey) := ToPx(node.end);
      var ptr := PointerFor(idx);
      control.Spawn(Swipe(ptr, sx, sy, ex, ey, dispW, dispH, 0));
    }

    /** The node a pressed key is bound to: one task of the state machine, with threads running before it. */
    method PressNode(control: Control, idx: nat, sym: nat, ghost tasks: seq<Task>)
      requires tasks != [] && tasks[0] == Press(idx, sym) && TasksFit(settings, tasks)
      modifies this, control
      ensures Reaches(settings, root, old(control.World(Snapshot(), tasks)), [], control.World(Snapshot(), tasks[1..]))
    {
      hide Reaches, NamesKey, EngineModel.UpdateWheel, EngineModel.PressClick, EngineModel.PressToggle, EngineModel.PressDrag;
      ghost var before := Snapshot();
      ghost var w := control.World(before, tasks);
      ghost var m := w;
      ReachesSelf(settings, root, w);
      var node := settings.nodes[idx];
      match node {
        case Click(_, _, _) =>
          m := PressClick(control, idx, tasks);
        case ClickTwice(_, _) =>
          m := PressToggle(control, idx, tasks);
        case ClickMulti(_, clicks) =>
          control.Spawn(Taps(clicks, dispW, dispH));
        case SteerWheel(_, _, _, _, _, _) =>
          if NamesKey(node, sym) {
            steerKeys := steerKeys + {sym};
            m := UpdateSteerWheel(control, node, before, tasks);
          }
        case Drag(_, _, _) =>
          PressDrag(control, idx, tasks[1..]);
      }
      ReachesOn(settings, root, w, [], m, Continue);
    }

    method LetGoNode(control: Control, idx: nat, sym: nat, ghost tasks: seq<Task>)
      requires tasks != [] && tasks[0] == LetGo(idx, sym) && TasksFit(settings, tasks)
      modifies this, control
      ensures Reaches(settings, root, old(control.World(Snapshot(), tasks)), [], control.World(Snapshot(), tasks[1..]))
    {
      hide Reaches, EngineModel.UpdateWheel;
      ghost var before := Snapshot();
      ghost var w := control.World(before, tasks);
      ghost var m := w;
      ReachesSelf(settings, root, w);
      if settings.nodes[idx].SteerWheel? {
        steerKeys := steerKeys - {sym};
        m := UpdateSteerWheel(control, settings.nodes[idx], before, tasks);
      }
      ReachesOn(settings, root, w, [], m, Continue);
    }

    /** All nodes of one key, in table order. */
    method RunNodes(control: Control, down: bool, indices: seq<nat>, sym: nat)
      requires forall i :: 0 <= i < |indices| ==> indices[i] < |settings.nodes|
      modifies this, control
      ensures Reaches(settings, root, old(control.World(Snapshot(), KeyTasks(down, indices, sym))), [],
                      control.World(Snapshot(), []))
    {
      hide Reaches;
      ghost var tasks := KeyTasks(down, indices, sym);
      ghost var w := control.World(Snapshot(), tasks);
      ReachesSelf(settings, root, w);
      var i := 0;
      assert tasks[0..] == tasks;
      while i < |indices|
        invariant 0 <= i <= |indices|
        invariant Reaches(settings, root, w, [], control.World(Snapshot(), tasks[i..]))
      {
        ghost var here := control.World(Snapshot(), tasks[i..]);
        assert tasks[i..][1..] == tasks[i + 1..];
        if down {
          PressNode(control, indices[i], sym, tasks[i..]);
        } else {
          LetGoNode(control, indices[i], sym, tasks[i..]);
        }
        ReachesQuietly(settings, root, w, [], here, control.World(Snapshot(), tasks[i + 1..]));
        i := i + 1;
      }
      assert tasks[i..] == [];
    }

    // ----- the handlers -----

    method OnKeyDown(control: Control, keysym: nat) returns (consumed: bool, ghost e: Event)
      requires Indexed()
      modifies this, control
      ensures e.KeyDown? && e.sym == keysym && consumed == Consumed(settings, old(Snapshot()), e)
      ensures Reaches(settings, root, old(control.World(Snapshot(), [])), [e], control.World(Snapshot(), []))
    {
      hide Reaches, Enabled, Scan, EngineModel.ReleaseAll;
      ghost var before := Snapshot();
      ghost var w := control.World(before, []);
      e := KeyDown(keysym, []);
      ReachesSelf(settings, root, w);
      if keysym == settings.switchSym {
        active := !active;
        if !active {
          ghost var m, order := ReleaseAll(control, before);
          e := KeyDown(keysym, order);
          CanAccept(settings, m, e);
          ReachesFirst(settings, root, w, m, e);
        } else {
          CanAccept(settings, w, e);
          ReachesFirst(settings, root, w, w, e);
        }
        return true, e;
      }
      CanAccept(settings, w, e);
      ReachesFirst(settings, root, w, w, e);
      if !active {
        return false, e;
      }
      if settings.adsSym == Some(keysym) {
        adsActive := true;
        return true, e;
      }
      assert Entry(keyLookup, keysym) == Scan(settings.nodes, keysym);
      if keysym !in keyLookup {
        return false, e;
      }
      ghost var m := control.World(Snapshot(), KeyTasks(true, keyLookup[keysym], keysym));
      RunNodes(control, true, keyLookup[keysym], keysym);
      ReachesQuietly(settings, root, w, [e], m, control.World(Snapshot(), []));
      consumed := true;
    }

    method OnKeyUp(control: Control, keysym: nat) returns (consumed: bool)
      requires Indexed()
      modifies this, control
      ensures consumed == Consumed(settings, old(Snapshot()), KeyUp(keysym))
      ensures Reaches(settings, root, old(control.World(Snapshot(), [])), [KeyUp(keysym)], control.World(Snapshot(), []))
    {
      hide Reaches, Enabled, Scan;
      ghost var w, e := control.World(Snapshot(), []), KeyUp(keysym);
      ReachesSelf(settings, root, w);
      CanAccept(settings, w, e);
      ReachesFirst(settings, root, w, w, e);
      if keysym == settings.switchSym {
        return true;
      }
      if !active {
        return false;
      }
      if settings.adsSym == Some(keysym) {
        adsActive := false;
        return true;
      }
      assert Entry(keyLookup, keysym) == Scan(settings.nodes, keysym);
      if keysym !in keyLookup {
        return false;
      }
      ghost var m := control.World(Snapshot(), KeyTasks(false, keyLookup[keysym], keysym));
      RunNodes(control, false, keyLookup[keysym], keysym);
      ReachesQuietly(settings, root, w, [e], m, control.World(Snapshot(), []));
      consumed := true;
    }

    method OnMouseDown(control: Control, button: nat) returns (consumed: bool)
      modifies control
      ensures consumed == Consumed(settings, Snapshot(), MouseDown(button))
      ensures Reaches(settings, root, old(control.World(Snapshot(), [])), [MouseDown(button)], control.World(Snapshot(), []))
    {
      consumed := MouseButton(control, button, Down);
    }

    method OnMouseUp(control: Control, button: nat) returns (consumed: bool)
      modifies control
      ensures consumed == Consumed(settings, Snapshot(), MouseUp(button))
      ensures Reaches(settings, root, old(control.World(Snapshot(), [])), [MouseUp(button)], control.World(Snapshot(), []))
    {
      consumed := MouseButton(control, button, Up);
    }

    method MouseButton(control: Control, button: nat, kind: Kind) returns (consumed: bool)
      requires kind != Move
      modifies control
      ensures var e := if kind == Down then MouseDown(button) else MouseUp(button);
              && consumed == Consumed(settings, Snapshot(), e)
              && Reaches(settings, root, old(control.World(Snapshot(), [])), [e], control.World(Snapshot(), []))
    {
      hide Reaches, Enabled, Pixel, FirePos;
      ghost var w, e := control.World(Snapshot(), []), if kind == Down then MouseDown(button) else MouseUp(button);
      ReachesSelf(settings, root, w);
      ghost var m := w;
      consumed := false;
      if active {
        if button == MOUSE_LEFT {
          var fire := FindFire(settings.nodes);
          if fire.Some? {
            var (px, py) := ToPx(fire.value);
            control.Lock(settings, root, Snapshot(), []);
            m := control.World(Snapshot(), []);
            control.Send(Touch(kind, PTR_FIRE, px, py, dispW, dispH));
            consumed := true;
          }
        }
      }
      CanAccept(settings, m, e);
      ReachesFirst(settings, root, w, m, e);
    }

    method SendAim(control: Control, px: nat, py: nat)
      modifies `mouseActive, control`sent
      ensures mouseActive
      ensures var center := settings.mouseCenter;
              var down := Touch(Down, PTR_AIM, FreePixel(center.x, dispW), FreePixel(center.y, dispH), dispW, dispH);
              control.sent == (if old(mouseActive) then old(control.sent) else old(control.sent) + [down])
                              + [Touch(Move, PTR_AIM, px, py, dispW, dispH)]
    {
      if !mouseActive {
        var cx, cy := FreePixel(settings.mouseCenter.x, dispW), FreePixel(settings.mouseCenter.y, dispH);
        control.Send(Touch(Down, PTR_AIM, cx, cy, dispW, dispH));
        mouseActive := true;
      }
      control.Send(Touch(Move, PTR_AIM, px, py, dispW, dispH));
    }

    method OnMouseMove(control: Control, dx: int, dy: int) returns (consumed: bool)
      modifies this, control
      ensures consumed == Consumed(settings, old(Snapshot()), MouseMove(dx, dy))
      ensures Reaches(settings, root, old(control.World(Snapshot(), [])), [MouseMove(dx, dy)], control.World(Snapshot(), []))
    {
      hide Reaches, Enabled, ClampedPixel, FreePixel, Accumulated;
      ghost var w, e := control.World(Snapshot(), []), MouseMove(dx, dy);
      ReachesSelf(settings, root, w);
      CanAccept(settings, w, e);
      if !active || !settings.hasMouse {
        ReachesFirst(settings, root, w, w, e);
        return false;
      }
      ghost var before := Snapshot();
      var mult := if adsActive then settings.adsSensitivity else 1.0;
      mouseAccumX := Accumulated(mouseAccumX, dx, settings.speedX, mult, dispW);
      mouseAccumY := Accumulated(mouseAccumY, dy, settings.speedY, mult, dispH);
      var px := ClampedPixel(settings.mouseCenter.x + mouseAccumX, dispW);
      var py := ClampedPixel(settings.mouseCenter.y + mouseAccumY, dispH);
      control.Lock(settings, root, before, []);
      ghost var m := control.World(before, []);
      SendAim(control, px, py);
      CanAccept(settings, m, e);
      ReachesFirst(settings, root, w, m, e);
      consumed := true;
      if FarOff(mouseAccumX) || FarOff(mouseAccumY) {
        ghost var tasks := [Recenter(px, py)];
        assert AcceptEvent(settings, m, e) == control.World(Snapshot(), tasks);
        Recentre(control, px, py, w, e);
      } else {
        assert AcceptEvent(settings, m, e) == control.World(Snapshot(), []);
      }
    }

    /** Lifting the aim pointer takes the lock anew. */
    method Recentre(control: Control, px: nat, py: nat, ghost w: World, ghost e: Event)
      requires Reaches(settings, root, w, [e], control.World(Snapshot(), [Recenter(px, py)]))
      modifies `mouseActive, `mouseAccumX, `mouseAccumY, control
      ensures Reaches(settings, root, w, [e], control.World(Snapshot(), []))
    {
      hide Reaches;
      ghost var tasks := [Recenter(px, py)];
      ghost var here := control.World(Snapshot(), tasks);
      control.Lock(settings, root, Snapshot(), tasks);
      ghost var m := control.World(Snapshot(), tasks);
      ReachesQuietly(settings, root, w, [e], here, m);
      control.Send(Touch(Up, PTR_AIM, px, py, dispW, dispH));
      mouseActive := false;
      mouseAccumX := 0.0;
      mouseAccumY := 0.0;
      ReachesOn(settings, root, w, [e], m, Continue);
    }
  }

  ghost predicate Walked(order: seq<nat>, todo: set<nat>, toggles: map<nat, bool>) {
    && (forall i :: 0 <= i < |order| ==> order[i] in toggles && order[i] !in todo)
    && (forall i, j :: 0 <= i < j < |order| ==> order[i] != order[j])
    && (forall k :: k in todo ==> k in toggles)
    && (forall k :: k in toggles ==> k in todo || k in order)
  }

  lemma WalkOn(order: seq<nat>, todo: set<nat>, toggles: map<nat, bool>, idx: nat)
    requires Walked(order, todo, toggles) && idx in todo
    ensures Walked(order + [idx], todo - {idx}, toggles)
  {
    forall k | k in toggles
      ensures k in todo - {idx} || k in order + [idx]
    {
      if k == idx {
        assert (order + [idx])[|order|] == idx;
      }
    }
  }

  lemma NoUpsYet(c: Settings, s: State, trace: Trace)
    ensures trace + ToggleUps(c, s, []) == trace
  {
  }

  lemma OneMoreUp(c: Settings, s: State, trace: Trace, order: seq<nat>, idx: nat)
    ensures trace + ToggleUps(c, s, order + [idx]) == trace + ToggleUps(c, s, order) + EngineSafety.ToggleUp(c, s, idx)
  {
    hide TouchAt;
    var last := order + [idx];
    assert last[..|last| - 1] == order;
    EngineSafety.JoinTrace(trace, ToggleUps(c, s, order), EngineSafety.ToggleUp(c, s, idx));
  }

  lemma CanAccept(c: Settings, w: World, e: Event)
    requires w.tasks == []
    requires e.KeyDown? && e.sym == c.switchSym && w.s.active ==> IsWalk(e.order, w.s.toggles)
    ensures Enabled(c, w, Accept(e))
  {
  }

  /** Whatever handlers were called and however the threads ran meanwhile, the fields say which pointers the guest sees down. */
  lemma FieldsMatchScreen(c: Settings, root: real -> real, width: Side, height: Side, events: seq<Event>, w: World)
    requires Reaches(c, root, Init(width, height), events, w)
    ensures PhaseOf(w.trace, PTR_STEER) == EngineSafety.Expected(w.s.steerActive)
    ensures PhaseOf(w.trace, PTR_AIM) == EngineSafety.Expected(w.s.mouseActive)
    ensures forall i :: i in w.s.pointers && i < |c.nodes| && c.nodes[i].ClickTwice?
              ==> PhaseOf(w.trace, w.s.pointers[i]) == EngineSafety.Expected(HeldDown(w.s, i))
    ensures forall i: nat :: HeldDown(w.s, i) ==> i in w.s.pointers && i < |c.nodes| && c.nodes[i].ClickTwice?
  {
    var steps :| Run(c, root, Init(width, height), steps, w) && EventsOf(steps) == events;
    hide Run, PhaseOf;
    EngineRuns.FlagsMatchScreen(c, root, width, height, steps, w);
  }
}
