/** What single keys and buttons do to the screen: the commands they send, one by one, and where each of them lands. */
module EngineGestures {
  import opened Wrappers
  import opened Numbers
  import opened KeyNames
  import opened Products
  import opened SteerVector
  import opened UiKeymap
  import opened TouchTrace
  import opened EngineModel
  import opened EngineSafety
  import opened EngineRuns

  /** A command on the pixel nearest to pos, on the display it was computed for. */
  ghost predicate Hits(cmd: Command, pos: Pos, w: Side, h: Side) {
    cmd.w == w && cmd.h == h && IsNearest(cmd.x, pos.x, w) && IsNearest(cmd.y, pos.y, h)
  }

  lemma TouchHits(kind: Kind, ptr: nat, pos: Pos, s: State)
    ensures Hits(TouchAt(kind, ptr, pos, s), pos, s.w, s.h)
  {
    PixelIsNearest(pos.x, s.w);
    PixelIsNearest(pos.y, s.h);
    hide IsNearest, Pixel;
  }

  // ----- threads, run to their end -----

  /** Thread i sends its next n commands. */
  function Alone(w: World, i: nat, n: nat): World
    decreases n
  {
    if n == 0 || i >= |w.threads| then w else Alone(RunThread(w, i), i, n - 1)
  }

  lemma LastThread(threads: seq<Thread>, t: Thread)
    ensures Without(threads + [t], |threads|) == threads
    ensures forall t' :: (threads + [t])[|threads| := t'] == threads + [t']
  {
  }

  /** A click's thread sends one command, the lift of the click's own touch, where it came down. */
  lemma ClickLifts(c: Settings, root: real -> real, w: World, idx: nat, sym: nat)
    requires idx < |c.nodes| && c.nodes[idx].Click?
    ensures var w1 := PressNode(c, root, w, idx, sym);
            var w2 := Alone(w1, |w.threads|, 1);
            && |w1.threads| == |w.threads| + 1 && w2.threads == w.threads && w2.s == w1.s
            && |w2.trace| == |w.trace| + 2 && w2.trace[..|w.trace|] == w.trace
            && var (down, up) := (w2.trace[|w.trace|], w2.trace[|w.trace| + 1]);
            && down.Touch? && up == down.(kind := Up) && down.kind == Down
            && idx in w1.s.pointers && down.ptr == w1.s.pointers[idx]
            && Hits(down, c.nodes[idx].pos, w.s.w, w.s.h)
  {
    hide Pixel, Hits;
    var w1 := PressNode(c, root, w, idx, sym);
    var (s1, ptr) := PointerFor(w.s, idx);
    TouchHits(Down, ptr, c.nodes[idx].pos, s1);
    LastThread(w.threads, w1.threads[|w.threads|]);
    assert Alone(w1, |w.threads|, 1) == Alone(RunThread(w1, |w.threads|), |w.threads|, 0);
  }

  /** The commands a swipe still has to send, up to n of them. */
  function SwipeCommands(t: Thread, n: nat): (cmds: seq<Command>)
    requires t.Swipe?
    ensures |cmds| == n
    ensures forall j :: 0 <= j < n ==> cmds[j] == SwipeCommand(t.(stage := t.stage + j))
  {
    seq(n, j requires 0 <= j < n => SwipeCommand(t.(stage := t.stage + j)))
  }

  lemma SwipeSnoc(t: Thread, n: nat)
    requires t.Swipe? && n > 0
    ensures SwipeCommands(t, n) == [SwipeCommand(t)] + SwipeCommands(t.(stage := t.stage + 1), n - 1)
  {
    hide SwipeCommand;
    var next := t.(stage := t.stage + 1);
    forall j | 0 < j < n
      ensures SwipeCommands(t, n)[j] == SwipeCommands(next, n - 1)[j - 1]
    {
      assert t.(stage := t.stage + j) == next.(stage := next.stage + (j - 1));
    }
  }

  lemma {:induction false} SwipeRuns(w: World, threads: seq<Thread>, t: Thread, n: nat)
    requires t.Swipe? && w.threads == threads + [t] && t.stage + n == DRAG_STEPS + 2 && n > 0
    ensures Alone(w, |threads|, n) == w.(trace := w.trace + SwipeCommands(t, n), threads := threads)
    decreases n
  {
    hide SwipeCommand, SwipeCommands;
    var next := t.(stage := t.stage + 1);
    LastThread(threads, t);
    SwipeSnoc(t, n);
    var w1 := RunThread(w, |threads|);
    assert w.trace + [SwipeCommand(t)] + SwipeCommands(next, n - 1) == w.trace + SwipeCommands(t, n);
    assert Alone(w, |threads|, n) == Alone(w1, |threads|, n - 1);
    if n > 1 {
      SwipeRuns(w1, threads, next, n - 1);
    }
  }

  /** The k-th of five moves from `from` to `to`: between them, no nearer to `from` than the one before, and evenly spaced up to rounding. */
  ghost predicate OnTheWay(at: int, from: int, to: int, k: nat) {
    && (from <= to ==> from <= at <= to) && (to <= from ==> to <= at <= from)
    && -5 < 5 * (at - from) - k * (to - from) < 5
  }

  /** Down, five moves and up, all on one pointer, from the pixel nearest to `start` to the pixel nearest to `end`. */
  ghost predicate DragsAcross(cmds: seq<Command>, ptr: nat, start: Pos, end: Pos, w: Side, h: Side) {
    && |cmds| == 7
    && (forall j :: 0 <= j < 7 ==> Concerns(cmds[j], ptr) && cmds[j].kind == (if j == 0 then Down else if j == 6 then Up else Move))
    && Hits(cmds[0], start, w, h) && Hits(cmds[5], end, w, h) && Hits(cmds[6], end, w, h)
    && (forall j :: 1 <= j <= 5 ==>
          && OnTheWay(cmds[j].x, cmds[0].x, cmds[5].x, j) && OnTheWay(cmds[j].y, cmds[0].y, cmds[5].y, j))
  }

  lemma DragOnTheWay(from: nat, to: nat, k: nat)
    requires 1 <= k <= 5
    ensures OnTheWay(DragAt(from, to, k), from, to, k) && DragAt(from, to, k) >= 0
    ensures DragAt(from, to, 5) == to
  {
    DragStaysBetween(from, to, k);
    DragStaysBetween(from, to, 5);
    assert k == 1 || k == 2 || k == 3 || k == 4 || k == 5;
  }

  lemma SwipeMove(t: Thread, j: nat)
    requires t.Swipe? && t.stage == 0 && 1 <= j <= 5
    requires t.sx < t.w && t.sy < t.h && t.ex < t.w && t.ey < t.h
    ensures var cmd := SwipeCommand(t.(stage := j));
            && Concerns(cmd, t.ptr) && cmd.kind == Move && cmd.w == t.w && cmd.h == t.h
            && OnTheWay(cmd.x, t.sx, t.ex, j) && OnTheWay(cmd.y, t.sy, t.ey, j)
            && (j == 5 ==> cmd.x == t.ex && cmd.y == t.ey)
  {
    hide OnTheWay, DragAt;
    DragOnTheWay(t.sx, t.ex, j);
    DragOnTheWay(t.sy, t.ey, j);
    WithinU32(t.sx, t.ex, j);
    WithinU32(t.sy, t.ey, j);
  }

  lemma SwipeDrags(t: Thread, start: Pos, end: Pos)
    requires t.Swipe? && t.stage == 0
    requires t.sx == Pixel(start.x, t.w) && t.sy == Pixel(start.y, t.h) && t.ex == Pixel(end.x, t.w) && t.ey == Pixel(end.y, t.h)
    ensures DragsAcross(SwipeCommands(t, 7), t.ptr, start, end, t.w, t.h)
  {
    PixelIsNearest(start.x, t.w);
    PixelIsNearest(start.y, t.h);
    PixelIsNearest(end.x, t.w);
    PixelIsNearest(end.y, t.h);
    assert t.sx < t.w && t.sy < t.h && t.ex < t.w && t.ey < t.h;
    hide Pixel, IsNearest, OnTheWay, DragAt;
    var cmds := SwipeCommands(t, 7);
    assert cmds[0] == Touch(Down, t.ptr, t.sx, t.sy, t.w, t.h) && cmds[6] == Touch(Up, t.ptr, t.ex, t.ey, t.w, t.h);
    forall j | 1 <= j <= 5
      ensures cmds[j] == SwipeCommand(t.(stage := j))
    {
    }
    hide SwipeCommand;
    SwipeMove(t, 5);
    forall j | 1 <= j <= 5
      ensures Concerns(cmds[j], t.ptr) && cmds[j].kind == Move
      ensures OnTheWay(cmds[j].x, t.sx, t.ex, j) && OnTheWay(cmds[j].y, t.sy, t.ey, j)
    {
      SwipeMove(t, j);
    }
  }

  lemma WithinU32(from: nat, to: nat, k: nat)
    requires from < MAX_SIDE && to < MAX_SIDE && 1 <= k <= 5
    ensures SatU32(DragAt(from, to, k)) == DragAt(from, to, k)
  {
    DragStaysBetween(from, to, k);
    hide DragAt;
  }

  /** Pressing a drag's key sends nothing itself; the thread it starts drags from the node's start to its end. */
  lemma DragLands(c: Settings, root: real -> real, w: World, idx: nat, sym: nat)
    requires idx < |c.nodes| && c.nodes[idx].Drag?
    ensures var w1 := PressNode(c, root, w, idx, sym);
            var w2 := Alone(w1, |w.threads|, 7);
            && w1.trace == w.trace && |w1.threads| == |w.threads| + 1 && w1.threads[..|w.threads|] == w.threads
            && w2.threads == w.threads && w2.s == w1.s && w.trace <= w2.trace
            && idx in w1.s.pointers
            && DragsAcross(w2.trace[|w.trace|..], w1.s.pointers[idx], c.nodes[idx].start, c.nodes[idx].end, w.s.w, w.s.h)
  {
    hide Pixel, DragsAcross, SwipeCommands;
    var node, w1 := c.nodes[idx], PressNode(c, root, w, idx, sym);
    var (s1, ptr) := PointerFor(w.s, idx);
    var t := w1.threads[|w.threads|];
    assert w1.threads == w.threads + [t] && t.Swipe? && t.stage == 0 && t.ptr == ptr;
    SwipeRuns(w1, w.threads, t, 7);
    SwipeDrags(t, node.start, node.end);
    assert (w.trace + SwipeCommands(t, 7))[|w.trace|..] == SwipeCommands(t, 7);
  }

  // ----- several taps -----

  lemma TapHits(v: real, side: Side)
    ensures IsNearest(TapPixel(v, side), v, side)
  {
    PixelIsNearest(v, side);
    hide IsNearest;
  }

  ghost predicate TapsInTurn(taps: Trace, clicks: seq<DelayedClick>, w: Side, h: Side) {
    |taps| == |clicks| && forall j :: 0 <= j < |taps| ==> taps[j].Tap? && Hits(taps[j], clicks[j].pos, w, h)
  }

  lemma {:induction false} TapsRun(w: World, threads: seq<Thread>, clicks: seq<DelayedClick>, width: Side, height: Side)
    returns (taps: Trace)
    requires w.threads == threads + [Taps(clicks, width, height)]
    ensures Alone(w, |threads|, |clicks| + 1) == w.(trace := w.trace + taps, threads := threads)
    ensures TapsInTurn(taps, clicks, width, height)
    decreases |clicks|
  {
    hide TapPixel, IsNearest;
    LastThread(threads, Taps(clicks, width, height));
    var w1 := RunThread(w, |threads|);
    if clicks == [] {
      taps := [];
      assert Alone(w, |threads|, 1) == Alone(w1, |threads|, 0);
      assert w.trace + [] == w.trace;
    } else {
      var x, y := TapPixel(clicks[0].pos.x, width), TapPixel(clicks[0].pos.y, height);
      TapHits(clicks[0].pos.x, width);
      TapHits(clicks[0].pos.y, height);
      var rest := TapsRun(w1, threads, clicks[1..], width, height);
      taps := [Tap(x, y, width, height)] + rest;
      assert w.trace + [Tap(x, y, width, height)] + rest == w.trace + taps;
    }
  }

  /** Pressing a multi-tap's key sends nothing itself; the thread it starts taps each of the node's positions once, in order. */
  lemma TapsLand(c: Settings, root: real -> real, w: World, idx: nat, sym: nat)
    requires idx < |c.nodes| && c.nodes[idx].ClickMulti?
    ensures var w1 := PressNode(c, root, w, idx, sym);
            var w2 := Alone(w1, |w.threads|, |c.nodes[idx].clicks| + 1);
            && w1.trace == w.trace && w1.s == w.s && w2.threads == w.threads && w2.s == w.s
            && w.trace <= w2.trace
            && TapsInTurn(w2.trace[|w.trace|..], c.nodes[idx].clicks, w.s.w, w.s.h)
  {
    hide TapsInTurn, Alone;
    var w1 := PressNode(c, root, w, idx, sym);
    var taps := TapsRun(w1, w.threads, c.nodes[idx].clicks, w.s.w, w.s.h);
    assert (w.trace + taps)[|w.trace|..] == taps;
  }

  // ----- the fire button -----

  predicate IsFireNode(node: Node) {
    node.Click? && node.key == "Mouse_Left"
  }

  /** The fire position is that of the first click node bound to the left button. */
  lemma {:induction false} FirePosIsFirst(nodes: seq<Node>)
    ensures match FirePos(nodes)
            case None => forall i :: 0 <= i < |nodes| ==> !IsFireNode(nodes[i])
            case Some(pos) =>
              exists i :: 0 <= i < |nodes| && IsFireNode(nodes[i]) && nodes[i].pos == pos && forall j :: 0 <= j < i ==> !IsFireNode(nodes[j])
  {
    if nodes != [] && !IsFireNode(nodes[0]) {
      FirePosIsFirst(nodes[1..]);
      if FirePos(nodes).Some? {
        var i :| 0 <= i < |nodes[1..]| && IsFireNode(nodes[1..][i]) && nodes[1..][i].pos == FirePos(nodes).value
                 && forall j :: 0 <= j < i ==> !IsFireNode(nodes[1..][j]);
        assert IsFireNode(nodes[i + 1]);
        forall j | 0 <= j < i + 1
          ensures !IsFireNode(nodes[j])
        {
          assert j > 0 ==> nodes[j] == nodes[1..][j - 1];
        }
      } else {
        forall j | 0 <= j < |nodes|
          ensures !IsFireNode(nodes[j])
        {
          assert j > 0 ==> nodes[j] == nodes[1..][j - 1];
        }
      }
    }
  }

  /** The left button presses and lifts the fire pointer on that node's position while the map is active, and does nothing else. */
  lemma FireLands(c: Settings, w: World, pressed: bool, idx: nat)
    requires idx < |c.nodes| && IsFireNode(c.nodes[idx]) && forall j :: 0 <= j < idx ==> !IsFireNode(c.nodes[j])
    ensures var w' := AcceptEvent(c, w, if pressed then MouseDown(MOUSE_LEFT) else MouseUp(MOUSE_LEFT));
            if !w.s.active then w' == w
            else
              && w' == w.(trace := w'.trace) && |w'.trace| == |w.trace| + 1 && w'.trace[..|w.trace|] == w.trace
              && var cmd := w'.trace[|w.trace|];
              && Concerns(cmd, PTR_FIRE) && cmd.kind == (if pressed then Down else Up)
              && Hits(cmd, c.nodes[idx].pos, w.s.w, w.s.h)
  {
    FirePosIsFirst(c.nodes);
    var pos := c.nodes[idx].pos;
    assert FirePos(c.nodes) == Some(pos);
    TouchHits(if pressed then Down else Up, PTR_FIRE, pos, w.s);
    hide FirePos, Hits, Pixel;
  }

  // ----- the switch key -----

  lemma CastNear(q: real, side: Side)
    requires 0.0 <= q <= side as real
    ensures -0.5 <= SatU32(Round(q)) as real - q <= 0.5
  {
    RoundNear(q);
    RoundMonotone(0.0, q);
    RoundMonotone(q, side as real);
    RoundInt(0);
    RoundInt(side);
  }

  /** Aim's centre, rounded but not cut off: within half a pixel of it, up to the display's far edge. */
  lemma FreePixelNear(v: real, side: Side)
    requires 0.0 <= v <= 1.0
    ensures -0.5 <= FreePixel(v, side) as real - v * side as real <= 0.5
  {
    var s, q := side as real, v * side as real;
    assert q == Mul(v, s);
    hide Mul;
    MulDistributes(1.0 - v, v, s);
    MulNonNegative(1.0 - v, s);
    MulNonNegative(v, s);
    MulUnits(s);
    CastNear(q, side);
  }

  /** A lift of one of the pointers that were down, where its touch belongs. */
  ghost predicate LiftsHeld(c: Settings, s: State, cmd: Command) {
    && cmd.Touch? && cmd.kind == Up && cmd.w == s.w && cmd.h == s.h
    && (cmd.ptr == PTR_STEER ==> s.steerActive && Hits(cmd, c.steerCenter, s.w, s.h))
    && (cmd.ptr == PTR_AIM ==>
          s.mouseActive && cmd.x == FreePixel(c.mouseCenter.x, s.w) && cmd.y == FreePixel(c.mouseCenter.y, s.h))
    && cmd.ptr != PTR_FIRE
    && (cmd.ptr >= PTR_BASE ==>
          exists i :: i in s.pointers && s.pointers[i] == cmd.ptr && HeldDown(s, i) && i < |c.nodes| && c.nodes[i].ClickTwice?
                   && Hits(cmd, c.nodes[i].pos, s.w, s.h))
  }

  lemma {:induction false} ToggleUpsLift(c: Settings, s: State, order: seq<nat>)
    requires PointersDistinct(c, s) && TogglesOwned(c, s)
    ensures forall j :: 0 <= j < |ToggleUps(c, s, order)| ==> LiftsHeld(c, s, ToggleUps(c, s, order)[j])
  {
    hide Hits, Pixel;
    if order != [] {
      var before, idx := order[..|order| - 1], order[|order| - 1];
      ToggleUpsLift(c, s, before);
      var ups, one := ToggleUps(c, s, before), ToggleUp(c, s, idx);
      assert ToggleUps(c, s, order) == ups + one;
      if one != [] {
        assert idx in s.toggles && idx in s.pointers;
        TouchHits(Up, s.pointers[idx], c.nodes[idx].pos, s);
        assert LiftsHeld(c, s, one[0]);
      }
      hide LiftsHeld, ToggleUps, ToggleUp;
    }
  }

  lemma FixedUpsLift(c: Settings, s: State)
    ensures forall i :: 0 <= i < |SteerUp(c, s)| ==> LiftsHeld(c, s, SteerUp(c, s)[i])
    ensures forall i :: 0 <= i < |AimUp(c, s)| ==> LiftsHeld(c, s, AimUp(c, s)[i])
  {
    TouchHits(Up, PTR_STEER, c.steerCenter, s);
    hide Hits, Pixel, FreePixel;
  }

  lemma SwitchOffTrace(c: Settings, w: World, order: seq<nat>)
    requires w.s.active
    ensures var w' := AcceptEvent(c, w, KeyDown(c.switchSym, order));
            && !w'.s.active
            && w'.trace == w.trace + (SteerUp(c, w.s) + AimUp(c, w.s) + ToggleUps(c, w.s, order))
  {
    var off := w.s.(active := false);
    ModeIgnored(c, w.s, order);
    assert SteerUp(c, off) == SteerUp(c, w.s) && AimUp(c, off) == AimUp(c, w.s);
    hide ToggleUps, SteerUp, AimUp;
  }

  /** Turning the map off sends lifts only, of pointers that were down, each at the place its touch belongs to. */
  lemma SwitchOffSends(c: Settings, w: World, order: seq<nat>, j: nat)
    requires NodesOk(c, w.s, w.trace, w.threads) && w.s.active
    ensures var w' := AcceptEvent(c, w, KeyDown(c.switchSym, order));
            && w.trace <= w'.trace && !w'.s.active
            && (|w.trace| <= j < |w'.trace| ==> LiftsHeld(c, w.s, w'.trace[j]))
  {
    var s := w.s;
    hide LiftsHeld, ToggleUps, SteerUp, AimUp, IsNearest, PhaseOf, Balance, LastKind, Pending, AcceptEvent;
    ToggleUpsLift(c, s, order);
    FixedUpsLift(c, s);
    SwitchOffTrace(c, w, order);
    hide NodesOk;
    var ups := SteerUp(c, s) + AimUp(c, s) + ToggleUps(c, s, order);
    assert |w.trace| <= j < |w.trace| + |ups| ==> (w.trace + ups)[j] == ups[j - |w.trace|];
  }

  lemma {:induction false} ModeIgnored(c: Settings, s: State, order: seq<nat>)
    ensures ToggleUps(c, s.(active := false), order) == ToggleUps(c, s, order)
  {
    hide Pixel;
    if order != [] {
      ModeIgnored(c, s, order[..|order| - 1]);
    }
  }
}
