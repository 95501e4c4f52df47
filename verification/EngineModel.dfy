/**
 The keymap engine as a state machine. One step is what happens under one acquisition of the control
 socket's lock: the engine accepts an event, or carries on with the event it is handling, or one of
 the threads it has spawned sends its next command.
 */
module EngineModel {
  import opened Wrappers
  import opened Numbers
  import opened KeyNames
  import opened SteerVector
  import opened UiKeymap
  import opened TouchTrace

  const PTR_STEER: nat := 0
  const PTR_AIM: nat := 1
  const PTR_FIRE: nat := 2
  const PTR_BASE: nat := 3

  const MOUSE_LEFT: nat := 1
  const DRAG_STEPS: nat := 5

  /** A display side for which the drag's 32-bit products cannot overflow. */
  const MAX_SIDE: nat := 429_496_729

  type Side = n: nat | 1 <= n <= MAX_SIDE witness 1

  datatype State = State(
    active: bool, w: Side, h: Side,
    steerActive: bool, steerKeys: set<nat>,
    toggles: map<nat, bool>,
    mouseActive: bool, accX: real, accY: real, adsActive: bool,
    pointers: map<nat, nat>, nextPointer: nat)

  datatype Thread =
    | Release(ptr: nat, x: nat, y: nat, w: Side, h: Side)
    | Swipe(ptr: nat, sx: nat, sy: nat, ex: nat, ey: nat, w: Side, h: Side, stage: nat)
    | Taps(clicks: seq<DelayedClick>, w: Side, h: Side)

  /** What is left of the event being handled. */
  datatype Task = Press(idx: nat, sym: nat) | LetGo(idx: nat, sym: nat) | Recenter(x: nat, y: nat)

  datatype World = World(s: State, tasks: seq<Task>, trace: Trace, threads: seq<Thread>)

  /** `order` is the order in which the toggle table is walked if this is the switch key. */
  datatype Event =
    | KeyDown(sym: nat, order: seq<nat>)
    | KeyUp(sym: nat)
    | MouseDown(button: nat)
    | MouseUp(button: nat)
    | MouseMove(dx: int, dy: int)
    | Resize(w: Side, h: Side)

  datatype StepKind = Accept(e: Event) | Continue | Thread(i: nat)

  // ----- coordinates -----

  /** The normalised coordinate in pixels, before rounding. */
  function Exact(v: real, side: Side): real {
    v * side as real
  }

  /** Round, cast to unsigned, cut off at the last pixel. */
  function Pixel(v: real, side: Side): (p: nat)
    ensures p < side
  {
    var p := SatU32(Round(Exact(v, side)));
    if p < side then p else side - 1
  }

  /** Round, cut off at the last pixel, cast to unsigned. */
  function TapPixel(v: real, side: Side): (p: nat)
    ensures p == Pixel(v, side)
  {
    var r := Round(Exact(v, side));
    SatU32(if r < side - 1 then r else side - 1)
  }

  /** Round, clamp to the display, cast. */
  function ClampedPixel(v: real, side: Side): (p: nat)
    ensures p == Pixel(v, side)
  {
    SatU32(Clamp(Round(Exact(v, side)), 0, side - 1))
  }

  /** Round and cast, not cut off. */
  function FreePixel(v: real, side: Side): nat {
    SatU32(Round(Exact(v, side)))
  }

  function TouchAt(kind: Kind, ptr: nat, pos: Pos, s: State): Command {
    Touch(kind, ptr, Pixel(pos.x, s.w), Pixel(pos.y, s.h), s.w, s.h)
  }

  /** Where the i-th of the drag's moves goes on one axis. */
  function DragAt(from: nat, to: nat, i: nat): int {
    from + TruncDiv((to - from) * i, DRAG_STEPS)
  }

  // ----- pieces of state -----

  function Init(w: Side, h: Side): World {
    World(State(false, w, h, false, {}, map[], false, 0.0, 0.0, false, map[], PTR_BASE), [], [], [])
  }

  function Emit(w: World, c: Command): World {
    w.(trace := w.trace + [c])
  }

  function Spawn(w: World, t: Thread): World {
    w.(threads := w.threads + [t])
  }

  /** `pointer_for`: the node's pointer, assigned on first use. */
  function PointerFor(s: State, idx: nat): (State, nat) {
    if idx in s.pointers then (s, s.pointers[idx])
    else (s.(pointers := s.pointers[idx := s.nextPointer], nextPointer := s.nextPointer + 1), s.nextPointer)
  }

  predicate HeldDown(s: State, idx: nat) {
    idx in s.toggles && s.toggles[idx]
  }

  function HeldKeys(node: Node, keys: set<nat>): Held
    requires node.SteerWheel?
  {
    Held(SymOr(node.leftKey, 0) in keys, SymOr(node.rightKey, 0) in keys,
         SymOr(node.upKey, 0) in keys, SymOr(node.downKey, 0) in keys)
  }

  predicate NamesKey(node: Node, sym: nat)
    requires node.SteerWheel?
  {
    var name := KeysymToName(sym);
    name == node.leftKey || name == node.rightKey || name == node.upKey || name == node.downKey
  }

  /** `update_steer_wheel` */
  function UpdateWheel(c: Settings, root: real -> real, w: World, node: Node): World
    requires node.SteerWheel?
  {
    var s := w.s;
    var held := HeldKeys(node, s.steerKeys);
    if !held.Any() then
      if s.steerActive then
        Emit(w, TouchAt(Up, PTR_STEER, c.steerCenter, s)).(s := s.(steerActive := false))
      else w
    else
      var d := Displacement(c.steerOffsets, held, root);
      var target := Pos(c.steerCenter.x + d.x, c.steerCenter.y + d.y);
      var w1 := if s.steerActive then w else Emit(w, TouchAt(Down, PTR_STEER, c.steerCenter, s));
      Emit(w1, TouchAt(Move, PTR_STEER, target, s)).(s := s.(steerActive := true))
  }

  // ----- one node of a key event -----

  function PressClick(c: Settings, w: World, idx: nat): World
    requires idx < |c.nodes| && c.nodes[idx].Click?
  {
    var node := c.nodes[idx];
    var (s1, ptr) := PointerFor(w.s, idx);
    var down := TouchAt(Down, ptr, node.pos, s1);
    var w1 := Spawn(Emit(w, down), Release(ptr, down.x, down.y, s1.w, s1.h));
    w1.(s := s1.(active := s1.active && !node.switchMap))
  }

  function PressToggle(c: Settings, w: World, idx: nat): World
    requires idx < |c.nodes| && c.nodes[idx].ClickTwice?
  {
    var node := c.nodes[idx];
    var (s1, ptr) := PointerFor(w.s, idx);
    var held := HeldDown(s1, idx);
    Emit(w, TouchAt(if held then Up else Down, ptr, node.pos, s1)).(s := s1.(toggles := s1.toggles[idx := !held]))
  }

  function PressDrag(c: Settings, w: World, idx: nat): World
    requires idx < |c.nodes| && c.nodes[idx].Drag?
  {
    var node := c.nodes[idx];
    var (s1, ptr) := PointerFor(w.s, idx);
    Spawn(w, Swipe(ptr, Pixel(node.start.x, s1.w), Pixel(node.start.y, s1.h),
                   Pixel(node.end.x, s1.w), Pixel(node.end.y, s1.h), s1.w, s1.h, 0)).(s := s1)
  }

  function PressNode(c: Settings, root: real -> real, w: World, idx: nat, sym: nat): World
    requires idx < |c.nodes|
  {
    var node := c.nodes[idx];
    match node
    case Click(_, _, _) => PressClick(c, w, idx)
    case ClickTwice(_, _) => PressToggle(c, w, idx)
    case ClickMulti(_, clicks) => Spawn(w, Taps(clicks, w.s.w, w.s.h))
    case SteerWheel(_, _, _, _, _, _) =>
      if NamesKey(node, sym) then UpdateWheel(c, root, w.(s := w.s.(steerKeys := w.s.steerKeys + {sym})), node)
      else w
    case Drag(_, _, _) => PressDrag(c, w, idx)
  }

  function LetGoNode(c: Settings, root: real -> real, w: World, idx: nat, sym: nat): World
    requires idx < |c.nodes|
  {
    var node := c.nodes[idx];
    if node.SteerWheel? then UpdateWheel(c, root, w.(s := w.s.(steerKeys := w.s.steerKeys - {sym})), node)
    else w
  }

  // ----- releasing everything -----

  /** A walk over the toggle table: each entry once. */
  ghost predicate IsWalk(order: seq<nat>, toggles: map<nat, bool>) {
    && (forall i :: 0 <= i < |order| ==> order[i] in toggles)
    && (forall i, j :: 0 <= i < j < |order| ==> order[i] != order[j])
    && (forall idx :: idx in toggles ==> idx in order)
  }

  function ToggleUps(c: Settings, s: State, order: seq<nat>): (r: Trace) {
    if order == [] then []
    else
      var last := |order| - 1;
      var idx := order[last];
      ToggleUps(c, s, order[..last])
      + if HeldDown(s, idx) && idx < |c.nodes| && c.nodes[idx].ClickTwice? then
          [TouchAt(Up, if idx in s.pointers then s.pointers[idx] else PTR_BASE, c.nodes[idx].pos, s)]
        else []
  }

  function SteerUp(c: Settings, s: State): Trace {
    if s.steerActive then [TouchAt(Up, PTR_STEER, c.steerCenter, s)] else []
  }

  function AimUp(c: Settings, s: State): Trace {
    if s.mouseActive then
      [Touch(Up, PTR_AIM, FreePixel(c.mouseCenter.x, s.w), FreePixel(c.mouseCenter.y, s.h), s.w, s.h)]
    else []
  }

  function ReleaseAll(c: Settings, w: World, order: seq<nat>): World {
    var s := w.s;
    w.(trace := w.trace + SteerUp(c, s) + AimUp(c, s) + ToggleUps(c, s, order),
       s := s.(steerActive := false, steerKeys := {}, mouseActive := false, accX := 0.0, accY := 0.0,
               toggles := map[], adsActive := false))
  }

  // ----- events -----

  /** The position of the first click node mapped to the left mouse button. */
  function FirePos(nodes: seq<Node>): Option<Pos> {
    if nodes == [] then None
    else if nodes[0].Click? && nodes[0].key == "Mouse_Left" then Some(nodes[0].pos)
    else FirePos(nodes[1..])
  }

  function KeyTasks(down: bool, indices: seq<nat>, sym: nat): (r: seq<Task>)
    ensures |r| == |indices|
    ensures forall i :: 0 <= i < |r| ==> r[i] == if down then Press(indices[i], sym) else LetGo(indices[i], sym)
  {
    seq(|indices|, i requires 0 <= i < |indices| => if down then Press(indices[i], sym) else LetGo(indices[i], sym))
  }

  function Accumulated(acc: real, d: int, speed: real, mult: real, side: Side): real {
    acc + d as real * speed * mult / side as real
  }

  function Aim(c: Settings, w: World, dx: int, dy: int): World {
    var s := w.s;
    var mult := if s.adsActive then c.adsSensitivity else 1.0;
    var accX := Accumulated(s.accX, dx, c.speedX, mult, s.w);
    var accY := Accumulated(s.accY, dy, c.speedY, mult, s.h);
    var px := ClampedPixel(c.mouseCenter.x + accX, s.w);
    var py := ClampedPixel(c.mouseCenter.y + accY, s.h);
    var down := Touch(Down, PTR_AIM, FreePixel(c.mouseCenter.x, s.w), FreePixel(c.mouseCenter.y, s.h), s.w, s.h);
    var w1 := if s.mouseActive then w else Emit(w, down);
    var w2 := Emit(w1, Touch(Move, PTR_AIM, px, py, s.w, s.h));
    w2.(s := s.(mouseActive := true, accX := accX, accY := accY),
        tasks := if FarOff(accX) || FarOff(accY) then [Recenter(px, py)] else [])
  }

  predicate FarOff(a: real) {
    a > 0.3 || a < -0.3
  }

  function AcceptEvent(c: Settings, w: World, e: Event): World {
    var s := w.s;
    match e
    case KeyDown(sym, order) =>
      if sym == c.switchSym then
        var w1 := w.(s := s.(active := !s.active));
        if s.active then ReleaseAll(c, w1, order) else w1
      else if !s.active then w
      else if c.adsSym == Some(sym) then w.(s := s.(adsActive := true))
      else w.(tasks := KeyTasks(true, Scan(c.nodes, sym), sym))
    case KeyUp(sym) =>
      if sym == c.switchSym || !s.active then w
      else if c.adsSym == Some(sym) then w.(s := s.(adsActive := false))
      else w.(tasks := KeyTasks(false, Scan(c.nodes, sym), sym))
    case MouseDown(button) =>
      if s.active && button == MOUSE_LEFT && FirePos(c.nodes).Some? then
        Emit(w, TouchAt(Down, PTR_FIRE, FirePos(c.nodes).value, s))
      else w
    case MouseUp(button) =>
      if s.active && button == MOUSE_LEFT && FirePos(c.nodes).Some? then
        Emit(w, TouchAt(Up, PTR_FIRE, FirePos(c.nodes).value, s))
      else w
    case MouseMove(dx, dy) => if s.active && c.hasMouse then Aim(c, w, dx, dy) else w
    case Resize(width, height) => w.(s := s.(w := width, h := height))
  }

  /** Whether the handler reports the event as consumed. */
  predicate Consumed(c: Settings, s: State, e: Event) {
    match e
    case KeyDown(sym, _) => sym == c.switchSym || (s.active && (c.adsSym == Some(sym) || Scan(c.nodes, sym) != []))
    case KeyUp(sym) => sym == c.switchSym || (s.active && (c.adsSym == Some(sym) || Scan(c.nodes, sym) != []))
    case MouseDown(button) => s.active && button == MOUSE_LEFT && FirePos(c.nodes).Some?
    case MouseUp(button) => s.active && button == MOUSE_LEFT && FirePos(c.nodes).Some?
    case MouseMove(_, _) => s.active && c.hasMouse
    case Resize(_, _) => false
  }

  function RunTask(c: Settings, root: real -> real, w: World): World
    requires w.tasks != [] && TasksFit(c, w.tasks)
  {
    var rest := w.(tasks := w.tasks[1..]);
    match w.tasks[0]
    case Press(idx, sym) => PressNode(c, root, rest, idx, sym)
    case LetGo(idx, sym) => LetGoNode(c, root, rest, idx, sym)
    case Recenter(x, y) =>
      Emit(rest, Touch(Up, PTR_AIM, x, y, w.s.w, w.s.h)).(s := w.s.(mouseActive := false, accX := 0.0, accY := 0.0))
  }

  predicate TasksFit(c: Settings, tasks: seq<Task>) {
    forall i :: 0 <= i < |tasks| ==> (tasks[i].Press? || tasks[i].LetGo?) ==> tasks[i].idx < |c.nodes|
  }

  // ----- threads -----

  function Without(threads: seq<Thread>, i: nat): seq<Thread>
    requires i < |threads|
  {
    threads[..i] + threads[i + 1..]
  }

  function SwipeCommand(t: Thread): Command
    requires t.Swipe?
  {
    if t.stage == 0 then Touch(Down, t.ptr, t.sx, t.sy, t.w, t.h)
    else if t.stage <= DRAG_STEPS then
      Touch(Move, t.ptr, SatU32(DragAt(t.sx, t.ex, t.stage)), SatU32(DragAt(t.sy, t.ey, t.stage)), t.w, t.h)
    else Touch(Up, t.ptr, t.ex, t.ey, t.w, t.h)
  }

  function RunThread(w: World, i: nat): World
    requires i < |w.threads|
  {
    match w.threads[i]
    case Release(ptr, x, y, width, height) =>
      Emit(w, Touch(Up, ptr, x, y, width, height)).(threads := Without(w.threads, i))
    case Swipe(_, _, _, _, _, _, _, stage) =>
      var t := w.threads[i];
      Emit(w, SwipeCommand(t)).(threads :=
        if stage <= DRAG_STEPS then w.threads[i := t.(stage := stage + 1)] else Without(w.threads, i))
    case Taps(clicks, width, height) =>
      if clicks == [] then w.(threads := Without(w.threads, i))
      else
        Emit(w, Tap(TapPixel(clicks[0].pos.x, width), TapPixel(clicks[0].pos.y, height), width, height))
        .(threads := w.threads[i := Taps(clicks[1..], width, height)])
  }

  // ----- steps and runs -----

  /** The engine takes a new event only when it is done with the last; threads may run at any time. */
  ghost predicate Enabled(c: Settings, w: World, step: StepKind) {
    match step
    case Accept(e) => w.tasks == [] && (e.KeyDown? && e.sym == c.switchSym && w.s.active ==> IsWalk(e.order, w.s.toggles))
    case Continue => w.tasks != [] && TasksFit(c, w.tasks)
    case Thread(i) => i < |w.threads|
  }

  ghost function Step(c: Settings, root: real -> real, w: World, step: StepKind): World
    requires Enabled(c, w, step)
  {
    match step
    case Accept(e) => AcceptEvent(c, w, e)
    case Continue => RunTask(c, root, w)
    case Thread(i) => RunThread(w, i)
  }

  /** w' is reached from w by the steps in `steps`, each enabled where it is taken. */
  ghost predicate Run(c: Settings, root: real -> real, w: World, steps: seq<StepKind>, w': World)
    decreases |steps|
  {
    if steps == [] then w == w'
    else Enabled(c, w, steps[0]) && Run(c, root, Step(c, root, w, steps[0]), steps[1..], w')
  }
}
