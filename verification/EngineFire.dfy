/** The fire pointer, which no flag speaks for: what every run leaves it doing. */
module EngineFire {
  import opened Wrappers
  import opened KeyNames
  import opened SteerVector
  import opened UiKeymap
  import opened TouchTrace
  import opened EngineModel
  import opened EngineSafety
  import opened EngineRuns

  /** What the left button does in one step that the engine accepts while the map is active. */
  function ButtonKinds(s: State, step: StepKind): seq<Kind> {
    if step.Accept? && s.active && step.e == MouseDown(MOUSE_LEFT) then [Down]
    else if step.Accept? && s.active && step.e == MouseUp(MOUSE_LEFT) then [Up]
    else []
  }

  /** The presses and releases of the left button accepted over a run while the map was active. */
  ghost function Buttons(c: Settings, root: real -> real, w: World, steps: seq<StepKind>, w': World): (kinds: seq<Kind>)
    requires Run(c, root, w, steps, w')
    ensures forall i :: 0 <= i < |kinds| ==> kinds[i] != Move
    decreases |steps|
  {
    if steps == [] then []
    else ButtonKinds(w.s, steps[0]) + Buttons(c, root, Step(c, root, w, steps[0]), steps[1..], w')
  }

  /** The last of them was a press. */
  predicate EndsPressed(kinds: seq<Kind>) {
    kinds != [] && kinds[|kinds| - 1] == Down
  }

  // ----- one step -----

  lemma {:induction false} ToggleUpsSpareFire(c: Settings, s: State, order: seq<nat>)
    requires forall i :: i in s.pointers ==> PTR_BASE <= s.pointers[i]
    ensures Silent(ToggleUps(c, s, order), PTR_FIRE)
  {
    hide Pixel;
    if order != [] {
      ToggleUpsSpareFire(c, s, order[..|order| - 1]);
    }
  }

  lemma SwitchOffSparesFire(c: Settings, w: World, order: seq<nat>)
    requires forall i :: i in w.s.pointers ==> PTR_BASE <= w.s.pointers[i]
    ensures KindsOn(ReleaseAll(c, w, order).trace, PTR_FIRE) == KindsOn(w.trace, PTR_FIRE)
  {
    var s := w.s;
    var ups := SteerUp(c, s) + AimUp(c, s) + ToggleUps(c, s, order);
    ToggleUpsSpareFire(c, s, order);
    assert Silent(SteerUp(c, s), PTR_FIRE) && Silent(AimUp(c, s), PTR_FIRE);
    hide ToggleUps, SteerUp, AimUp, KindsOn;
    KindsUnchanged(w.trace, SteerUp(c, s), PTR_FIRE);
    KindsUnchanged(w.trace + SteerUp(c, s), AimUp(c, s), PTR_FIRE);
    KindsUnchanged(w.trace + SteerUp(c, s) + AimUp(c, s), ToggleUps(c, s, order), PTR_FIRE);
  }

  lemma AimSparesFire(c: Settings, w: World, dx: int, dy: int)
    ensures KindsOn(Aim(c, w, dx, dy).trace, PTR_FIRE) == KindsOn(w.trace, PTR_FIRE)
  {
    var s, w' := w.s, Aim(c, w, dx, dy);
    var down := Touch(Down, PTR_AIM, FreePixel(c.mouseCenter.x, s.w), FreePixel(c.mouseCenter.y, s.h), s.w, s.h);
    var move := w'.trace[|w'.trace| - 1];
    var t1 := if s.mouseActive then w.trace else w.trace + [down];
    assert w'.trace == t1 + [move] && move.ptr == PTR_AIM && move.Touch?;
    hide KindsOn, Aim, FreePixel;
    KindsSnoc(w.trace, down, PTR_FIRE);
    KindsSnoc(t1, move, PTR_FIRE);
  }

  lemma AcceptOnFire(c: Settings, w: World, e: Event)
    requires forall i :: i in w.s.pointers ==> PTR_BASE <= w.s.pointers[i]
    ensures KindsOn(AcceptEvent(c, w, e).trace, PTR_FIRE)
         == KindsOn(w.trace, PTR_FIRE) + if FirePos(c.nodes).Some? then ButtonKinds(w.s, Accept(e)) else []
  {
    hide KindsOn, ReleaseAll, Aim, Pixel, Scan, FirePos;
    match e {
      case KeyDown(sym, order) =>
        SwitchOffSparesFire(c, w.(s := w.s.(active := !w.s.active)), order);
      case MouseDown(_) =>
        if FirePos(c.nodes).Some? {
          KindsSnoc(w.trace, TouchAt(Down, PTR_FIRE, FirePos(c.nodes).value, w.s), PTR_FIRE);
        }
      case MouseUp(_) =>
        if FirePos(c.nodes).Some? {
          KindsSnoc(w.trace, TouchAt(Up, PTR_FIRE, FirePos(c.nodes).value, w.s), PTR_FIRE);
        }
      case MouseMove(dx, dy) =>
        AimSparesFire(c, w, dx, dy);
      case _ =>
    }
  }

  lemma WheelSparesFire(c: Settings, root: real -> real, w: World, node: Node)
    requires node.SteerWheel?
    ensures KindsOn(UpdateWheel(c, root, w, node).trace, PTR_FIRE) == KindsOn(w.trace, PTR_FIRE)
  {
    hide KindsOn, Displacement, HeldKeys, Pixel;
    var w' := UpdateWheel(c, root, w, node);
    var down := TouchAt(Down, PTR_STEER, c.steerCenter, w.s);
    KindsSnoc(w.trace, TouchAt(Up, PTR_STEER, c.steerCenter, w.s), PTR_FIRE);
    KindsSnoc(w.trace, down, PTR_FIRE);
    if HeldKeys(node, w.s.steerKeys).Any() {
      var move := w'.trace[|w'.trace| - 1];
      assert move.Touch? && move.ptr == PTR_STEER;
      KindsSnoc(w.trace, move, PTR_FIRE);
      KindsSnoc(w.trace + [down], move, PTR_FIRE);
    }
  }

  lemma PressSparesFire(c: Settings, root: real -> real, w: World, idx: nat, sym: nat)
    requires idx < |c.nodes| && PTR_BASE <= w.s.nextPointer
    requires forall i :: i in w.s.pointers ==> PTR_BASE <= w.s.pointers[i]
    ensures KindsOn(PressNode(c, root, w, idx, sym).trace, PTR_FIRE) == KindsOn(w.trace, PTR_FIRE)
  {
    hide KindsOn, Pixel, NamesKey, UpdateWheel;
    var (s1, ptr) := PointerFor(w.s, idx);
    match c.nodes[idx] {
      case Click(_, pos, _) =>
        KindsSnoc(w.trace, TouchAt(Down, ptr, pos, s1), PTR_FIRE);
      case ClickTwice(_, pos) =>
        KindsSnoc(w.trace, TouchAt(if HeldDown(s1, idx) then Up else Down, ptr, pos, s1), PTR_FIRE);
      case SteerWheel(_, _, _, _, _, _) =>
        WheelSparesFire(c, root, w.(s := w.s.(steerKeys := w.s.steerKeys + {sym})), c.nodes[idx]);
      case _ =>
    }
  }

  lemma TaskSparesFire(c: Settings, root: real -> real, w: World)
    requires w.tasks != [] && TasksFit(c, w.tasks) && PTR_BASE <= w.s.nextPointer
    requires forall i :: i in w.s.pointers ==> PTR_BASE <= w.s.pointers[i]
    ensures KindsOn(RunTask(c, root, w).trace, PTR_FIRE) == KindsOn(w.trace, PTR_FIRE)
  {
    hide KindsOn, PressNode, UpdateWheel;
    var rest := w.(tasks := w.tasks[1..]);
    match w.tasks[0] {
      case Press(idx, sym) =>
        PressSparesFire(c, root, rest, idx, sym);
      case LetGo(idx, sym) =>
        if c.nodes[idx].SteerWheel? {
          WheelSparesFire(c, root, rest.(s := rest.s.(steerKeys := rest.s.steerKeys - {sym})), c.nodes[idx]);
        }
      case Recenter(x, y) =>
        KindsSnoc(w.trace, Touch(Up, PTR_AIM, x, y, w.s.w, w.s.h), PTR_FIRE);
    }
  }

  lemma ThreadSparesFire(c: Settings, w: World, i: nat)
    requires Inv(c, w) && i < |w.threads|
    ensures KindsOn(RunThread(w, i).trace, PTR_FIRE) == KindsOn(w.trace, PTR_FIRE)
  {
    var w' := RunThread(w, i);
    ThreadCommand(c, w, i);
    hide KindsOn, RunThread, NodesOk;
    if w'.trace != w.trace {
      KindsSnoc(w.trace, w'.trace[|w.trace|], PTR_FIRE);
    }
  }

  lemma StepOnFire(c: Settings, root: real -> real, w: World, step: StepKind)
    requires Inv(c, w) && Enabled(c, w, step)
    ensures KindsOn(Step(c, root, w, step).trace, PTR_FIRE)
         == KindsOn(w.trace, PTR_FIRE) + if FirePos(c.nodes).Some? then ButtonKinds(w.s, step) else []
  {
    assert PTR_BASE <= w.s.nextPointer && forall i :: i in w.s.pointers ==> PTR_BASE <= w.s.pointers[i];
    hide Inv, KindsOn, AcceptEvent, RunTask, RunThread, FirePos;
    match step {
      case Accept(e) => AcceptOnFire(c, w, e);
      case Continue => TaskSparesFire(c, root, w);
      case Thread(i) => ThreadSparesFire(c, w, i);
    }
  }

  // ----- runs -----

  /** Over every run, under every interleaving, the fire pointer is told exactly what the left button did while the map was active. */
  lemma {:induction false} FireFollowsButton(c: Settings, root: real -> real, w: World, steps: seq<StepKind>, w': World)
    requires Inv(c, w) && Run(c, root, w, steps, w')
    ensures KindsOn(w'.trace, PTR_FIRE)
         == KindsOn(w.trace, PTR_FIRE) + if FirePos(c.nodes).Some? then Buttons(c, root, w, steps, w') else []
    decreases |steps|
  {
    hide Inv, Enabled, Step, KindsOn, ButtonKinds, FirePos;
    if steps != [] {
      var w1 := Step(c, root, w, steps[0]);
      StepKeeps(c, root, w, steps[0]);
      StepOnFire(c, root, w, steps[0]);
      FireFollowsButton(c, root, w1, steps[1..], w');
      JoinKinds(KindsOn(w.trace, PTR_FIRE), ButtonKinds(w.s, steps[0]), Buttons(c, root, w1, steps[1..], w'));
    }
  }

  lemma JoinKinds(a: seq<Kind>, b: seq<Kind>, d: seq<Kind>)
    ensures a + (b + d) == a + b + d
  {
  }

  lemma NothingTold(trace: Trace, ptr: nat)
    requires trace == []
    ensures KindsOn(trace, ptr) == []
  {
  }

  /**
   After every run the fire pointer's last command is a down exactly if the last left-button event accepted
   while the map was active was a press; and it stays in (down move* up)* exactly if those events alternated.
   */
  lemma FireDownIff(c: Settings, root: real -> real, width: Side, height: Side, steps: seq<StepKind>, w: World)
    requires Run(c, root, Init(width, height), steps, w) && FirePos(c.nodes).Some?
    ensures var kinds := Buttons(c, root, Init(width, height), steps, w);
            && (LastKind(w.trace, PTR_FIRE) == Some(Down) <==> EndsPressed(kinds))
            && (PhaseOf(w.trace, PTR_FIRE) != Broken <==> Alternates(kinds))
            && (Alternates(kinds) ==> PhaseOf(w.trace, PTR_FIRE) == Expected(EndsPressed(kinds)))
  {
    hide KindsOn, PhaseAfter, PhaseOf, LastKind, Inv, Run, FirePos, Buttons;
    var w0 := Init(width, height);
    var kinds := Buttons(c, root, w0, steps, w);
    InitHolds(c, width, height);
    FireFollowsButton(c, root, w0, steps, w);
    NothingTold(w0.trace, PTR_FIRE);
    assert [] + kinds == kinds;
    KindsTellAll(w.trace, PTR_FIRE);
    AlternatingIff(kinds);
  }

  /** Steer, aim and click-twice pointers lifted, the fire pointer up, and every click or drag pointer up that no thread has still to lift. */
  ghost predicate NothingLeftDown(c: Settings, w: World) {
    && AllLifted(c, w)
    && LastKind(w.trace, PTR_FIRE) in {None, Some(Up)}
    && forall i :: i in w.s.pointers && i < |c.nodes| && Threaded(c.nodes[i]) ==> UpUnlessOwed(w, w.s.pointers[i])
  }

  ghost predicate UpUnlessOwed(w: World, ptr: nat) {
    Pending(w.threads, ptr) == 0 ==> LastKind(w.trace, ptr) in {None, Some(Up)}
  }

  /** Turning the map off leaves nothing down exactly if the last left-button event accepted while it was active was not a press. */
  lemma SwitchOffLiftsFireIff(c: Settings, root: real -> real, width: Side, height: Side, steps: seq<StepKind>, w: World,
                              order: seq<nat>)
    requires Run(c, root, Init(width, height), steps, w) && FirePos(c.nodes).Some?
    requires w.s.active && Enabled(c, w, Accept(KeyDown(c.switchSym, order)))
    ensures var w' := Step(c, root, w, Accept(KeyDown(c.switchSym, order)));
            NothingLeftDown(c, w') <==> !EndsPressed(Buttons(c, root, Init(width, height), steps, w))
  {
    var off := Accept(KeyDown(c.switchSym, order));
    var w' := Step(c, root, w, off);
    var kinds := Buttons(c, root, Init(width, height), steps, w);
    SwitchOffLiftsAll(c, root, width, height, steps, w, order);
    FireDownIff(c, root, width, height, steps, w);
    OffStep(c, root, width, height, steps, w, off);
    hide Run, Enabled, Step, AllLifted, PhaseOf, UpUnlessOwed, EndsPressed, LastKind;
    UpMeansNotDown(LastKind(w.trace, PTR_FIRE));
  }

  /** The step itself tells fire nothing, and its threads' books still balance afterwards. */
  lemma OffStep(c: Settings, root: real -> real, width: Side, height: Side, steps: seq<StepKind>, w: World, off: StepKind)
    requires Run(c, root, Init(width, height), steps, w) && Enabled(c, w, off) && off.Accept? && off.e.KeyDown?
    ensures var w' := Step(c, root, w, off);
            && LastKind(w'.trace, PTR_FIRE) == LastKind(w.trace, PTR_FIRE)
            && LastKind(w.trace, PTR_FIRE) != Some(Move)
            && forall i :: i in w'.s.pointers && i < |c.nodes| && Threaded(c.nodes[i]) ==> UpUnlessOwed(w', w'.s.pointers[i])
  {
    var w', w0 := Step(c, root, w, off), Init(width, height);
    InitHolds(c, width, height);
    RunKeeps(c, root, w0, steps, w);
    StepKeeps(c, root, w, off);
    StepOnFire(c, root, w, off);
    FireFollowsButton(c, root, w0, steps, w);
    KindsTellAll(w.trace, PTR_FIRE);
    KindsTellAll(w'.trace, PTR_FIRE);
    assert KindsOn(w0.trace, PTR_FIRE) == [];
    BooksBalance(c, w');
    hide Inv, Enabled, Step, KindsOn, PhaseAfter, PhaseOf, FirePos, Run, LastKind, UpUnlessOwed;
  }

  lemma UpMeansNotDown(k: Option<Kind>)
    ensures k in {None, Some(Up)} <==> k !in {Some(Down), Some(Move)}
  {
    if k.Some? {
      assert k.value == Down || k.value == Move || k.value == Up;
    }
  }

  lemma BooksBalance(c: Settings, w: World)
    requires Inv(c, w)
    ensures forall i :: i in w.s.pointers && i < |c.nodes| && Threaded(c.nodes[i]) ==> UpUnlessOwed(w, w.s.pointers[i])
  {
    forall i | i in w.s.pointers && i < |c.nodes| && Threaded(c.nodes[i])
      ensures UpUnlessOwed(w, w.s.pointers[i])
    {
      assert Settled(w.s, w.trace, w.threads, i);
      hide LastKind, Pending;
      UpMeansNotDown(LastKind(w.trace, w.s.pointers[i]));
    }
  }

  // ----- the shortest run that leaves it down -----

  /** Turning the map off while the fire button is down leaves the fire pointer down: the button's release is then ignored. */
  lemma FireStaysDown(c: Settings, root: real -> real, width: Side, height: Side)
    requires FirePos(c.nodes).Some?
    ensures var steps := [Accept(KeyDown(c.switchSym, [])), Accept(MouseDown(MOUSE_LEFT)),
                          Accept(KeyDown(c.switchSym, [])), Accept(MouseUp(MOUSE_LEFT))];
            exists w :: Run(c, root, Init(width, height), steps, w) && !w.s.active && PhaseOf(w.trace, PTR_FIRE) == Pressed
  {
    var w0 := Init(width, height);
    var w1 := w0.(s := w0.s.(active := true));
    var down := TouchAt(Down, PTR_FIRE, FirePos(c.nodes).value, w1.s);
    var w2 := w1.(trace := [down]);
    var w3 := w2.(s := w0.s);
    hide Scan, TouchAt;
    assert AcceptEvent(c, w0, KeyDown(c.switchSym, [])) == w1;
    assert AcceptEvent(c, w1, MouseDown(MOUSE_LEFT)) == w2;
    assert IsWalk([], w2.s.toggles);
    assert AcceptEvent(c, w2, KeyDown(c.switchSym, [])) == w3 by {
      assert [down] + [] + [] + [] == [down];
    }
    assert AcceptEvent(c, w3, MouseUp(MOUSE_LEFT)) == w3;
    var a, b := Accept(KeyDown(c.switchSym, [])), Accept(MouseDown(MOUSE_LEFT));
    var d := Accept(MouseUp(MOUSE_LEFT));
    assert Run(c, root, w3, [], w3);
    OneStep(c, root, w3, d, [], w3);
    OneStep(c, root, w2, a, [d], w3);
    OneStep(c, root, w1, b, [a, d], w3);
    OneStep(c, root, w0, a, [b, a, d], w3);
    assert [] + [down] == [down];
    FireCommand(c, w1.s, FirePos(c.nodes).value);
  }

  lemma FireCommand(c: Settings, s: State, pos: Pos)
    ensures PhaseOf([TouchAt(Down, PTR_FIRE, pos, s)], PTR_FIRE) == Pressed
  {
    Snoc([], TouchAt(Down, PTR_FIRE, pos, s), PTR_FIRE);
    assert [] + [TouchAt(Down, PTR_FIRE, pos, s)] == [TouchAt(Down, PTR_FIRE, pos, s)];
  }
}
