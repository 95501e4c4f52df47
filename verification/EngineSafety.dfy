/** What holds of the engine, its threads and the guest's touch screen after every run. */
module EngineSafety {
  import opened Wrappers
  import opened Numbers
  import opened SteerVector
  import opened UiKeymap
  import opened TouchTrace
  import opened EngineModel

  function Expected(on: bool): Phase {
    if on then Pressed else Lifted
  }

  // ----- the invariant -----

  /** Node pointers are distinct, above the fixed three and below the counter. */
  ghost predicate PointersDistinct(c: Settings, s: State) {
    && PTR_BASE <= s.nextPointer
    && (forall i :: i in s.pointers ==> i < |c.nodes| && PTR_BASE <= s.pointers[i] < s.nextPointer)
    && (forall i, j :: i in s.pointers && j in s.pointers && i != j ==> s.pointers[i] != s.pointers[j])
  }

  /** Toggle entries belong to click-twice nodes with a pointer. */
  ghost predicate TogglesOwned(c: Settings, s: State) {
    forall i :: i in s.toggles ==> i in s.pointers && i < |c.nodes| && c.nodes[i].ClickTwice?
  }

  /** No command was ever sent on a pointer that is not assigned yet. */
  ghost predicate Assigned(trace: Trace, next: nat) {
    forall i :: 0 <= i < |trace| ==> trace[i].Touch? ==> trace[i].ptr < next
  }

  ghost predicate ToggleTruthful(c: Settings, s: State, trace: Trace, i: nat)
    requires i in s.pointers
  {
    i < |c.nodes| && c.nodes[i].ClickTwice? ==> PhaseOf(trace, s.pointers[i]) == Expected(HeldDown(s, i))
  }

  /** Releases on ptr that threads still owe: their down is out, their up is not. */
  function Owes(t: Thread, ptr: nat): nat {
    match t
    case Release(p, _, _, _, _) => if p == ptr then 1 else 0
    case Swipe(p, _, _, _, _, _, _, stage) => if p == ptr && stage > 0 then 1 else 0
    case Taps(_, _, _) => 0
  }

  function Pending(threads: seq<Thread>, ptr: nat): (n: nat) {
    if threads == [] then 0 else Pending(threads[..|threads| - 1], ptr) + Owes(threads[|threads| - 1], ptr)
  }

  predicate Threaded(node: Node) {
    node.Click? || node.Drag?
  }

  ghost predicate Settled(s: State, trace: Trace, threads: seq<Thread>, i: nat)
    requires i in s.pointers
  {
    var p := s.pointers[i];
    && Balance(trace, p) == Pending(threads, p)
    && (LastKind(trace, p) in {Some(Down), Some(Move)} ==> Pending(threads, p) > 0)
  }

  /** Every command of a click or drag pointer is accounted for by a thread. */
  ghost predicate Accounted(c: Settings, s: State, trace: Trace, threads: seq<Thread>) {
    forall i :: i in s.pointers && i < |c.nodes| && Threaded(c.nodes[i]) ==> Settled(s, trace, threads, i)
  }

  ghost predicate ThreadFits(c: Settings, s: State, t: Thread) {
    match t
    case Release(p, x, y, w, h) =>
      x < w && y < h && exists i :: i in s.pointers && i < |c.nodes| && c.nodes[i].Click? && s.pointers[i] == p
    case Swipe(p, sx, sy, ex, ey, w, h, stage) =>
      && sx < w && ex < w && sy < h && ey < h && stage <= DRAG_STEPS + 1
      && exists i :: i in s.pointers && i < |c.nodes| && c.nodes[i].Drag? && s.pointers[i] == p
    case Taps(_, _, _) => true
  }

  ghost predicate ThreadsFit(c: Settings, s: State, threads: seq<Thread>) {
    forall i :: 0 <= i < |threads| ==> ThreadFits(c, s, threads[i])
  }

  /** Aim's touch-down at the centre and its lifts are the only commands not cut off at the display's edge. */
  predicate OnDisplay(c: Command) {
    (c.Touch? && c.ptr == PTR_AIM && c.kind != Move) || (c.x < c.w && c.y < c.h)
  }

  ghost predicate AllOnDisplay(trace: Trace) {
    forall i :: 0 <= i < |trace| ==> OnDisplay(trace[i])
  }

  predicate TaskFits(c: Settings, s: State, tasks: seq<Task>) {
    && TasksFit(c, tasks)
    && (forall i :: 0 <= i < |tasks| && tasks[i].Recenter? ==> s.mouseActive && |tasks| == 1)
  }

  /** The accumulated aim stays within the dead zone once the move is done with. */
  predicate AimNear(s: State, tasks: seq<Task>) {
    (exists i :: 0 <= i < |tasks| && tasks[i].Recenter?) || (!FarOff(s.accX) && !FarOff(s.accY))
  }

  /** The part of the invariant that concerns node pointers. */
  ghost predicate NodesOk(c: Settings, s: State, trace: Trace, threads: seq<Thread>) {
    && PointersDistinct(c, s)
    && TogglesOwned(c, s)
    && Assigned(trace, s.nextPointer)
    && (forall i :: i in s.pointers ==> ToggleTruthful(c, s, trace, i))
    && Accounted(c, s, trace, threads)
    && ThreadsFit(c, s, threads)
    && AllOnDisplay(trace)
  }

  ghost predicate Inv(c: Settings, w: World) {
    && NodesOk(c, w.s, w.trace, w.threads)
    && PhaseOf(w.trace, PTR_STEER) == Expected(w.s.steerActive)
    && PhaseOf(w.trace, PTR_AIM) == Expected(w.s.mouseActive)
    && TaskFits(c, w.s, w.tasks)
    && AimNear(w.s, w.tasks)
  }

  // ----- releases owed -----

  lemma {:induction false} PendingJoin(a: seq<Thread>, b: seq<Thread>, ptr: nat)
    ensures Pending(a + b, ptr) == Pending(a, ptr) + Pending(b, ptr)
  {
    if b == [] {
      assert a + b == a;
    } else {
      assert (a + b)[..|a + b| - 1] == a + b[..|b| - 1];
      PendingJoin(a, b[..|b| - 1], ptr);
    }
  }

  lemma PendingThree(a: seq<Thread>, t: Thread, b: seq<Thread>, ptr: nat)
    ensures Pending(a + [t] + b, ptr) == Pending(a + b, ptr) + Owes(t, ptr)
  {
    PendingOne(t, ptr);
    PendingJoin(a, [t], ptr);
    PendingJoin(a + [t], b, ptr);
    PendingJoin(a, b, ptr);
  }

  lemma PendingRemove(threads: seq<Thread>, i: nat, ptr: nat)
    requires i < |threads|
    ensures Pending(Without(threads, i), ptr) == Pending(threads, ptr) - Owes(threads[i], ptr)
  {
    PendingThree(threads[..i], threads[i], threads[i + 1..], ptr);
    assert threads == threads[..i] + [threads[i]] + threads[i + 1..];
  }

  lemma PendingReplace(threads: seq<Thread>, i: nat, t: Thread, ptr: nat)
    requires i < |threads|
    ensures Pending(threads[i := t], ptr) == Pending(threads, ptr) - Owes(threads[i], ptr) + Owes(t, ptr)
  {
    PendingThree(threads[..i], t, threads[i + 1..], ptr);
    PendingRemove(threads, i, ptr);
    assert threads[i := t] == threads[..i] + [t] + threads[i + 1..];
  }

  lemma PendingOne(t: Thread, ptr: nat)
    ensures Pending([t], ptr) == Owes(t, ptr)
  {
    assert [t][..0] == [];
  }

  lemma PendingSpawn(threads: seq<Thread>, t: Thread, ptr: nat)
    ensures Pending(threads + [t], ptr) == Pending(threads, ptr) + Owes(t, ptr)
  {
    PendingJoin(threads, [t], ptr);
    PendingOne(t, ptr);
  }

  lemma {:induction false} NothingOwed(c: Settings, s: State, threads: seq<Thread>, ptr: nat)
    requires PointersDistinct(c, s) && ThreadsFit(c, s, threads) && s.nextPointer <= ptr
    ensures Pending(threads, ptr) == 0
  {
    if threads != [] {
      var shorter := threads[..|threads| - 1];
      assert ThreadsFit(c, s, shorter);
      NothingOwed(c, s, shorter, ptr);
      assert ThreadFits(c, s, threads[|threads| - 1]);
    }
  }

  // ----- single effects -----

  /** Only pointers, toggles and the counter of the state matter. */
  lemma NodesFrame(c: Settings, s: State, s': State, trace: Trace, threads: seq<Thread>)
    requires NodesOk(c, s, trace, threads)
    requires s'.pointers == s.pointers && s'.toggles == s.toggles && s'.nextPointer == s.nextPointer
    ensures NodesOk(c, s', trace, threads)
  {
    forall i | i in s'.pointers
      ensures ToggleTruthful(c, s', trace, i)
    {
      assert ToggleTruthful(c, s, trace, i);
    }
    forall i | i in s'.pointers && i < |c.nodes| && Threaded(c.nodes[i])
      ensures Settled(s', trace, threads, i)
    {
      assert Settled(s, trace, threads, i);
    }
    forall i | 0 <= i < |threads|
      ensures ThreadFits(c, s', threads[i])
    {
      assert ThreadFits(c, s, threads[i]);
    }
  }

  /** A command on one of the fixed pointers, or a tap, leaves every node pointer as it was. */
  lemma EmitFixed(c: Settings, s: State, trace: Trace, threads: seq<Thread>, cmd: Command)
    requires NodesOk(c, s, trace, threads) && OnDisplay(cmd)
    requires cmd.Touch? ==> cmd.ptr < PTR_BASE
    ensures NodesOk(c, s, trace + [cmd], threads)
  {
    forall i | i in s.pointers
      ensures ToggleTruthful(c, s, trace + [cmd], i)
    {
      Snoc(trace, cmd, s.pointers[i]);
      assert ToggleTruthful(c, s, trace, i);
    }
    forall i | i in s.pointers && i < |c.nodes| && Threaded(c.nodes[i])
      ensures Settled(s, trace + [cmd], threads, i)
    {
      Snoc(trace, cmd, s.pointers[i]);
      assert Settled(s, trace, threads, i);
    }
  }

  /** Assigning a pointer on first use. */
  lemma Assign(c: Settings, s: State, trace: Trace, threads: seq<Thread>, idx: nat)
    requires NodesOk(c, s, trace, threads) && idx < |c.nodes|
    ensures var (s1, ptr) := PointerFor(s, idx);
            && NodesOk(c, s1, trace, threads)
            && idx in s1.pointers && s1.pointers[idx] == ptr && PTR_BASE <= ptr
  {
    if idx !in s.pointers {
      var (s1, ptr) := PointerFor(s, idx);
      assert Silent(trace, ptr);
      SilentPointer(trace, ptr);
      NothingOwed(c, s, threads, ptr);
      forall i | i in s1.pointers
        ensures ToggleTruthful(c, s1, trace, i)
      {
        if i != idx {
          assert ToggleTruthful(c, s, trace, i);
        }
      }
      forall i | i in s1.pointers && i < |c.nodes| && Threaded(c.nodes[i])
        ensures Settled(s1, trace, threads, i)
      {
        if i != idx {
          assert Settled(s, trace, threads, i);
        }
      }
      forall i | 0 <= i < |threads|
        ensures ThreadFits(c, s1, threads[i])
      {
        FitsMore(c, s, s1, threads[i]);
      }
    }
  }

  lemma FitsMore(c: Settings, s: State, s1: State, t: Thread)
    requires ThreadFits(c, s, t)
    requires forall i :: i in s.pointers ==> i in s1.pointers && s1.pointers[i] == s.pointers[i]
    ensures ThreadFits(c, s1, t)
  {
  }

  /** A command on the pointer of a node that no thread concerns: its toggle flips. */
  lemma EmitToggle(c: Settings, s: State, trace: Trace, threads: seq<Thread>, idx: nat, cmd: Command)
    requires NodesOk(c, s, trace, threads) && OnDisplay(cmd)
    requires idx in s.pointers && idx < |c.nodes| && c.nodes[idx].ClickTwice?
    requires cmd.Touch? && cmd.ptr == s.pointers[idx] && cmd.kind == if HeldDown(s, idx) then Up else Down
    ensures NodesOk(c, s.(toggles := s.toggles[idx := !HeldDown(s, idx)]), trace + [cmd], threads)
  {
    var s1 := s.(toggles := s.toggles[idx := !HeldDown(s, idx)]);
    forall i | i in s1.pointers
      ensures ToggleTruthful(c, s1, trace + [cmd], i)
    {
      Snoc(trace, cmd, s.pointers[i]);
      assert ToggleTruthful(c, s, trace, i);
    }
    forall i | i in s1.pointers && i < |c.nodes| && Threaded(c.nodes[i])
      ensures Settled(s1, trace + [cmd], threads, i)
    {
      Snoc(trace, cmd, s.pointers[i]);
      assert Settled(s, trace, threads, i);
    }
    forall i | 0 <= i < |threads|
      ensures ThreadFits(c, s1, threads[i])
    {
      FitsMore(c, s, s1, threads[i]);
    }
  }

  /** A command on a threaded node's pointer, with the threads changed so that the books still balance. */
  lemma EmitThreaded(c: Settings, s: State, trace: Trace, threads: seq<Thread>, threads': seq<Thread>, idx: nat, cmd: Command)
    requires NodesOk(c, s, trace, threads) && OnDisplay(cmd) && ThreadsFit(c, s, threads')
    requires idx in s.pointers && idx < |c.nodes| && Threaded(c.nodes[idx])
    requires cmd.Touch? && cmd.ptr == s.pointers[idx]
    requires Pending(threads', cmd.ptr) == Pending(threads, cmd.ptr) + Change(cmd.kind)
    requires cmd.kind != Up ==> Pending(threads', cmd.ptr) > 0
    requires forall p :: p != cmd.ptr ==> Pending(threads', p) == Pending(threads, p)
    ensures NodesOk(c, s, trace + [cmd], threads')
  {
    forall i | i in s.pointers
      ensures ToggleTruthful(c, s, trace + [cmd], i)
    {
      Snoc(trace, cmd, s.pointers[i]);
      assert ToggleTruthful(c, s, trace, i);
    }
    forall i | i in s.pointers && i < |c.nodes| && Threaded(c.nodes[i])
      ensures Settled(s, trace + [cmd], threads', i)
    {
      Snoc(trace, cmd, s.pointers[i]);
      assert Settled(s, trace, threads, i);
    }
  }

  /** Threads that owe nothing may come and go. */
  lemma ChangeThreads(c: Settings, s: State, trace: Trace, threads: seq<Thread>, threads': seq<Thread>)
    requires NodesOk(c, s, trace, threads) && ThreadsFit(c, s, threads')
    requires forall p :: Pending(threads', p) == Pending(threads, p)
    ensures NodesOk(c, s, trace, threads')
  {
    forall i | i in s.pointers && i < |c.nodes| && Threaded(c.nodes[i])
      ensures Settled(s, trace, threads', i)
    {
      assert Settled(s, trace, threads, i);
    }
  }

  // ----- where commands land -----

  /** No pixel of the display is nearer to the normalised coordinate than p. */
  ghost predicate IsNearest(p: nat, v: real, side: Side) {
    p < side && forall g: nat :: g < side ==> AsNear(p, g, v, side)
  }

  ghost predicate AsNear(p: nat, g: nat, v: real, side: Side) {
    Distance(v * side as real, p as real) <= Distance(v * side as real, g as real)
  }

  lemma PixelIsNearest(v: real, side: Side)
    ensures IsNearest(Pixel(v, side), v, side)
  {
    var p, q := Pixel(v, side), v * side as real;
    assert p == Clamp(Round(q), 0, side - 1);
    forall g: nat | g < side
      ensures AsNear(p, g, v, side)
    {
      NearestInt(q, side, g);
    }
  }

  /** Pressing a click or click-twice key sends one command, on that node's pointer, to the pixel nearest to its position. */
  lemma PressLands(c: Settings, root: real -> real, w: World, idx: nat, sym: nat)
    requires idx < |c.nodes| && (c.nodes[idx].Click? || c.nodes[idx].ClickTwice?)
    ensures var w' := PressNode(c, root, w, idx, sym);
            && |w'.trace| == |w.trace| + 1 && w'.trace[..|w.trace|] == w.trace
            && var cmd := w'.trace[|w.trace|];
            && cmd.Touch? && idx in w'.s.pointers && cmd.ptr == w'.s.pointers[idx]
            && cmd.kind == (if c.nodes[idx].ClickTwice? && HeldDown(w.s, idx) then Up else Down)
            && IsNearest(cmd.x, c.nodes[idx].pos.x, w.s.w) && IsNearest(cmd.y, c.nodes[idx].pos.y, w.s.h)
  {
    PixelIsNearest(c.nodes[idx].pos.x, w.s.w);
    PixelIsNearest(c.nodes[idx].pos.y, w.s.h);
    hide Pixel, IsNearest;
  }

  /** Aim's move goes to the pixel nearest to the centre plus what has accumulated, recentred or not. */
  lemma AimLands(c: Settings, w: World, dx: int, dy: int)
    ensures var w' := Aim(c, w, dx, dy);
            && w'.trace != [] && w'.s.mouseActive
            && var cmd := w'.trace[|w'.trace| - 1];
            && cmd.Touch? && cmd.ptr == PTR_AIM && cmd.kind == Move
            && IsNearest(cmd.x, c.mouseCenter.x + w'.s.accX, w.s.w) && IsNearest(cmd.y, c.mouseCenter.y + w'.s.accY, w.s.h)
            && (w'.tasks == [] || w'.tasks == [Recenter(cmd.x, cmd.y)])
  {
    hide Accumulated, IsNearest, Exact, FreePixel;
    var w' := Aim(c, w, dx, dy);
    PixelIsNearest(c.mouseCenter.x + w'.s.accX, w.s.w);
    PixelIsNearest(c.mouseCenter.y + w'.s.accY, w.s.h);
    hide Pixel, ClampedPixel;
  }

  // ----- drag geometry -----

  /** Every move of a drag lies between its end points, no move goes back, and the last one arrives. */
  lemma DragStaysBetween(from: nat, to: nat, i: nat)
    requires i <= DRAG_STEPS
    ensures from <= to ==> from <= DragAt(from, to, i) <= to
    ensures to <= from ==> to <= DragAt(from, to, i) <= from
    ensures i < DRAG_STEPS && from <= to ==> DragAt(from, to, i) <= DragAt(from, to, i + 1)
    ensures i < DRAG_STEPS && to <= from ==> DragAt(from, to, i + 1) <= DragAt(from, to, i)
    ensures DragAt(from, to, 0) == from && DragAt(from, to, DRAG_STEPS) == to
  {
    var d := to - from;
    assert i == 0 || i == 1 || i == 2 || i == 3 || i == 4 || i == 5;
  }

  /** The 32-bit products of a drag within the display do not overflow. */
  lemma DragFits(from: nat, to: nat, side: Side, i: nat)
    requires from < side && to < side && i <= DRAG_STEPS
    ensures I32_MIN <= (to - from) * i <= I32_MAX && I32_MIN <= DragAt(from, to, i) <= I32_MAX
  {
    DragStaysBetween(from, to, i);
    assert i == 0 || i == 1 || i == 2 || i == 3 || i == 4 || i == 5;
  }

  lemma SwipeOnDisplay(c: Settings, s: State, t: Thread)
    requires t.Swipe? && ThreadFits(c, s, t)
    ensures OnDisplay(SwipeCommand(t))
  {
    if 0 < t.stage <= DRAG_STEPS {
      DragStaysBetween(t.sx, t.ex, t.stage);
      DragStaysBetween(t.sy, t.ey, t.stage);
    }
  }

  // ----- threads keep the invariant -----

  lemma FitWithout(c: Settings, s: State, threads: seq<Thread>, i: nat)
    requires ThreadsFit(c, s, threads) && i < |threads|
    ensures ThreadsFit(c, s, Without(threads, i))
  {
  }

  lemma FitReplaced(c: Settings, s: State, threads: seq<Thread>, i: nat, t: Thread)
    requires ThreadsFit(c, s, threads) && i < |threads| && ThreadFits(c, s, t)
    ensures ThreadsFit(c, s, threads[i := t])
  {
  }

  lemma ReleaseKeeps(c: Settings, w: World, i: nat)
    requires NodesOk(c, w.s, w.trace, w.threads) && i < |w.threads| && w.threads[i].Release?
    ensures var w' := RunThread(w, i); NodesOk(c, w'.s, w'.trace, w'.threads)
  {
    var t, rest := w.threads[i], Without(w.threads, i);
    assert ThreadFits(c, w.s, t);
    var idx :| idx in w.s.pointers && idx < |c.nodes| && c.nodes[idx].Click? && w.s.pointers[idx] == t.ptr;
    FitWithout(c, w.s, w.threads, i);
    forall p
      ensures Pending(rest, p) == Pending(w.threads, p) - Owes(t, p)
    {
      PendingRemove(w.threads, i, p);
    }
    EmitThreaded(c, w.s, w.trace, w.threads, rest, idx, Touch(Up, t.ptr, t.x, t.y, t.w, t.h));
  }

  lemma SwipeMovesOn(c: Settings, s: State, trace: Trace, threads: seq<Thread>, i: nat, idx: nat)
    requires NodesOk(c, s, trace, threads) && i < |threads| && threads[i].Swipe? && threads[i].stage <= DRAG_STEPS
    requires idx in s.pointers && idx < |c.nodes| && c.nodes[idx].Drag? && s.pointers[idx] == threads[i].ptr
    ensures var t := threads[i];
            NodesOk(c, s, trace + [SwipeCommand(t)], threads[i := t.(stage := t.stage + 1)])
  {
    var t := threads[i];
    var t1 := t.(stage := t.stage + 1);
    var next := threads[i := t1];
    assert ThreadFits(c, s, t) && ThreadFits(c, s, t1);
    SwipeOnDisplay(c, s, t);
    FitReplaced(c, s, threads, i, t1);
    forall p
      ensures Pending(next, p) == Pending(threads, p) - Owes(t, p) + Owes(t1, p)
    {
      PendingReplace(threads, i, t1, p);
    }
    PendingRemove(threads, i, t.ptr);
    hide NodesOk, ThreadsFit, ThreadFits, Pending, OnDisplay;
    EmitThreaded(c, s, trace, threads, next, idx, SwipeCommand(t));
  }

  lemma SwipeEnds(c: Settings, s: State, trace: Trace, threads: seq<Thread>, i: nat, idx: nat)
    requires NodesOk(c, s, trace, threads) && i < |threads| && threads[i].Swipe? && threads[i].stage > DRAG_STEPS
    requires idx in s.pointers && idx < |c.nodes| && c.nodes[idx].Drag? && s.pointers[idx] == threads[i].ptr
    ensures NodesOk(c, s, trace + [SwipeCommand(threads[i])], Without(threads, i))
  {
    var t, rest := threads[i], Without(threads, i);
    assert ThreadFits(c, s, t);
    SwipeOnDisplay(c, s, t);
    FitWithout(c, s, threads, i);
    forall p
      ensures Pending(rest, p) == Pending(threads, p) - Owes(t, p)
    {
      PendingRemove(threads, i, p);
    }
    EmitThreaded(c, s, trace, threads, rest, idx, SwipeCommand(t));
  }

  lemma SwipeKeeps(c: Settings, w: World, i: nat)
    requires NodesOk(c, w.s, w.trace, w.threads) && i < |w.threads| && w.threads[i].Swipe?
    ensures var w' := RunThread(w, i); NodesOk(c, w'.s, w'.trace, w'.threads)
  {
    var t := w.threads[i];
    assert ThreadFits(c, w.s, t);
    var idx :| idx in w.s.pointers && idx < |c.nodes| && c.nodes[idx].Drag? && w.s.pointers[idx] == t.ptr;
    hide NodesOk, SwipeCommand;
    if t.stage <= DRAG_STEPS {
      SwipeMovesOn(c, w.s, w.trace, w.threads, i, idx);
    } else {
      SwipeEnds(c, w.s, w.trace, w.threads, i, idx);
    }
  }

  lemma TapsKeep(c: Settings, w: World, i: nat)
    requires NodesOk(c, w.s, w.trace, w.threads) && i < |w.threads| && w.threads[i].Taps?
    ensures var w' := RunThread(w, i); NodesOk(c, w'.s, w'.trace, w'.threads)
  {
    var t, w' := w.threads[i], RunThread(w, i);
    forall p
      ensures Pending(w'.threads, p) == Pending(w.threads, p)
    {
      PendingRemove(w.threads, i, p);
      if t.clicks != [] {
        PendingReplace(w.threads, i, w'.threads[i], p);
      }
    }
    FitWithout(c, w.s, w.threads, i);
    if t.clicks != [] {
      FitReplaced(c, w.s, w.threads, i, w'.threads[i]);
    }
    ChangeThreads(c, w.s, w.trace, w.threads, w'.threads);
    if t.clicks != [] {
      EmitFixed(c, w.s, w.trace, w'.threads, w'.trace[|w.trace|]);
    }
  }

  /** What a thread's step adds to the trace: nothing, or one command that concerns no fixed pointer. */
  lemma ThreadCommand(c: Settings, w: World, i: nat)
    requires NodesOk(c, w.s, w.trace, w.threads) && i < |w.threads|
    ensures var w' := RunThread(w, i);
            && w'.s == w.s && w'.tasks == w.tasks
            && (w'.trace == w.trace
                || (|w'.trace| == |w.trace| + 1 && w'.trace == w.trace + [w'.trace[|w.trace|]]
                    && (w'.trace[|w.trace|].Touch? ==> w'.trace[|w.trace|].ptr >= PTR_BASE)))
  {
    assert ThreadFits(c, w.s, w.threads[i]);
  }

  lemma ThreadKeeps(c: Settings, w: World, i: nat)
    requires Inv(c, w) && i < |w.threads|
    ensures Inv(c, RunThread(w, i))
  {
    var t, w' := w.threads[i], RunThread(w, i);
    ThreadCommand(c, w, i);
    hide NodesOk, RunThread;
    match t {
      case Release(_, _, _, _, _) => ReleaseKeeps(c, w, i);
      case Swipe(_, _, _, _, _, _, _, _) => SwipeKeeps(c, w, i);
      case Taps(_, _, _) => TapsKeep(c, w, i);
    }
    if w'.trace != w.trace {
      Snoc(w.trace, w'.trace[|w.trace|], PTR_STEER);
      Snoc(w.trace, w'.trace[|w.trace|], PTR_AIM);
    }
  }

  // ----- tasks keep the invariant -----

  /**
   The wheel's pointer is down afterwards exactly when one of this wheel's keys is held, and then it has
   just moved to the stick's position.
   */
  lemma WheelFollowsKeys(c: Settings, root: real -> real, w: World, node: Node)
    requires node.SteerWheel? && PhaseOf(w.trace, PTR_STEER) == Expected(w.s.steerActive)
    ensures var w' := UpdateWheel(c, root, w, node);
            var held := HeldKeys(node, w.s.steerKeys);
            && w'.s == w.s.(steerActive := held.Any())
            && w'.tasks == w.tasks && w'.threads == w.threads
            && PhaseOf(w'.trace, PTR_STEER) == Expected(held.Any())
            && (held.Any() ==>
                  var d := Displacement(c.steerOffsets, held, root);
                  && w'.trace != []
                  && w'.trace[|w'.trace| - 1]
                     == TouchAt(Move, PTR_STEER, Pos(c.steerCenter.x + d.x, c.steerCenter.y + d.y), w.s))
            && (!held.Any() && !w.s.steerActive ==> w'.trace == w.trace)
  {
    hide Displacement, Pixel, PhaseOf, HeldKeys;
    var down := TouchAt(Down, PTR_STEER, c.steerCenter, w.s);
    var d := Displacement(c.steerOffsets, HeldKeys(node, w.s.steerKeys), root);
    var move := TouchAt(Move, PTR_STEER, Pos(c.steerCenter.x + d.x, c.steerCenter.y + d.y), w.s);
    Snoc(w.trace, TouchAt(Up, PTR_STEER, c.steerCenter, w.s), PTR_STEER);
    Snoc(w.trace, down, PTR_STEER);
    Snoc(w.trace, move, PTR_STEER);
    Snoc(w.trace + [down], move, PTR_STEER);
  }

  lemma SteerCommand(c: Settings, s: State, trace: Trace, threads: seq<Thread>, kind: Kind, pos: Pos)
    requires NodesOk(c, s, trace, threads)
    ensures var trace' := trace + [TouchAt(kind, PTR_STEER, pos, s)];
            NodesOk(c, s, trace', threads) && PhaseOf(trace', PTR_AIM) == PhaseOf(trace, PTR_AIM)
  {
    hide NodesOk;
    var cmd := TouchAt(kind, PTR_STEER, pos, s);
    EmitFixed(c, s, trace, threads, cmd);
    Snoc(trace, cmd, PTR_AIM);
  }

  /** Commands on the wheel's pointer disturb nothing else. */
  lemma WheelDisturbsNothing(c: Settings, root: real -> real, w: World, node: Node)
    requires node.SteerWheel? && NodesOk(c, w.s, w.trace, w.threads)
    ensures var w' := UpdateWheel(c, root, w, node);
            && NodesOk(c, w.s, w'.trace, w.threads)
            && PhaseOf(w'.trace, PTR_AIM) == PhaseOf(w.trace, PTR_AIM)
  {
    hide NodesOk, Displacement, TouchAt, PhaseOf, HeldKeys;
    if !HeldKeys(node, w.s.steerKeys).Any() {
      SteerCommand(c, w.s, w.trace, w.threads, Up, c.steerCenter);
    } else {
      var d := Displacement(c.steerOffsets, HeldKeys(node, w.s.steerKeys), root);
      var target := Pos(c.steerCenter.x + d.x, c.steerCenter.y + d.y);
      if w.s.steerActive {
        SteerCommand(c, w.s, w.trace, w.threads, Move, target);
      } else {
        SteerCommand(c, w.s, w.trace, w.threads, Down, c.steerCenter);
        SteerCommand(c, w.s, w.trace + [TouchAt(Down, PTR_STEER, c.steerCenter, w.s)], w.threads, Move, target);
      }
    }
  }

  ghost predicate FixedOk(s: State, trace: Trace) {
    PhaseOf(trace, PTR_STEER) == Expected(s.steerActive) && PhaseOf(trace, PTR_AIM) == Expected(s.mouseActive)
  }

  ghost predicate CoreInv(c: Settings, w: World) {
    NodesOk(c, w.s, w.trace, w.threads) && FixedOk(w.s, w.trace)
  }

  lemma WheelKeeps(c: Settings, root: real -> real, w: World, node: Node)
    requires node.SteerWheel? && CoreInv(c, w)
    ensures CoreInv(c, UpdateWheel(c, root, w, node))
  {
    var w' := UpdateWheel(c, root, w, node);
    WheelFollowsKeys(c, root, w, node);
    WheelDisturbsNothing(c, root, w, node);
    hide UpdateWheel, NodesOk;
    NodesFrame(c, w.s, w'.s, w'.trace, w.threads);
  }

  lemma FixedUntouched(trace: Trace, cmd: Command)
    requires cmd.Touch? ==> cmd.ptr >= PTR_BASE
    ensures PhaseOf(trace + [cmd], PTR_STEER) == PhaseOf(trace, PTR_STEER)
    ensures PhaseOf(trace + [cmd], PTR_AIM) == PhaseOf(trace, PTR_AIM)
  {
    Snoc(trace, cmd, PTR_STEER);
    Snoc(trace, cmd, PTR_AIM);
  }

  /** A click's touch-down goes out together with the thread that owes its release. */
  lemma ClickKeeps(c: Settings, w: World, idx: nat)
    requires idx < |c.nodes| && c.nodes[idx].Click? && CoreInv(c, w)
    ensures CoreInv(c, PressClick(c, w, idx))
  {
    var node := c.nodes[idx];
    var (s1, ptr) := PointerFor(w.s, idx);
    var down := TouchAt(Down, ptr, node.pos, s1);
    var t := Release(ptr, down.x, down.y, s1.w, s1.h);
    Assign(c, w.s, w.trace, w.threads, idx);
    assert ThreadFits(c, s1, t);
    assert ThreadsFit(c, s1, w.threads + [t]);
    forall p
      ensures Pending(w.threads + [t], p) == Pending(w.threads, p) + Owes(t, p)
    {
      PendingSpawn(w.threads, t, p);
    }
    hide Pixel, NodesOk, ThreadsFit, Pending;
    EmitThreaded(c, s1, w.trace, w.threads, w.threads + [t], idx, down);
    NodesFrame(c, s1, s1.(active := s1.active && !node.switchMap), w.trace + [down], w.threads + [t]);
    FixedUntouched(w.trace, down);
  }

  lemma ToggleKeeps(c: Settings, w: World, idx: nat)
    requires idx < |c.nodes| && c.nodes[idx].ClickTwice? && CoreInv(c, w)
    ensures CoreInv(c, PressToggle(c, w, idx))
  {
    var (s1, ptr) := PointerFor(w.s, idx);
    var cmd := TouchAt(if HeldDown(s1, idx) then Up else Down, ptr, c.nodes[idx].pos, s1);
    hide Pixel, NodesOk;
    Assign(c, w.s, w.trace, w.threads, idx);
    EmitToggle(c, s1, w.trace, w.threads, idx, cmd);
    FixedUntouched(w.trace, cmd);
  }

  lemma SpawnIdle(c: Settings, w: World, t: Thread)
    requires CoreInv(c, w) && ThreadFits(c, w.s, t) && (forall p :: Owes(t, p) == 0)
    ensures CoreInv(c, Spawn(w, t))
  {
    forall p
      ensures Pending(w.threads + [t], p) == Pending(w.threads, p)
    {
      PendingSpawn(w.threads, t, p);
    }
    ChangeThreads(c, w.s, w.trace, w.threads, w.threads + [t]);
  }

  lemma DragKeeps(c: Settings, w: World, idx: nat)
    requires idx < |c.nodes| && c.nodes[idx].Drag? && CoreInv(c, w)
    ensures CoreInv(c, PressDrag(c, w, idx))
  {
    var (s1, ptr) := PointerFor(w.s, idx);
    var w1 := w.(s := s1);
    Assign(c, w.s, w.trace, w.threads, idx);
    hide NodesOk;
    var w' := PressDrag(c, w, idx);
    SpawnIdle(c, w1, w'.threads[|w.threads|]);
  }

  lemma PressKeeps(c: Settings, root: real -> real, w: World, idx: nat, sym: nat)
    requires idx < |c.nodes| && CoreInv(c, w)
    ensures CoreInv(c, PressNode(c, root, w, idx, sym))
  {
    hide PressClick, PressToggle, PressDrag, UpdateWheel, NamesKey, NodesOk;
    var node := c.nodes[idx];
    match node {
      case Click(_, _, _) => ClickKeeps(c, w, idx);
      case ClickTwice(_, _) => ToggleKeeps(c, w, idx);
      case ClickMulti(_, clicks) => SpawnIdle(c, w, Taps(clicks, w.s.w, w.s.h));
      case SteerWheel(_, _, _, _, _, _) =>
        var w1 := w.(s := w.s.(steerKeys := w.s.steerKeys + {sym}));
        NodesFrame(c, w.s, w1.s, w.trace, w.threads);
        WheelKeeps(c, root, w1, node);
      case Drag(_, _, _) => DragKeeps(c, w, idx);
    }
  }

  lemma LetGoKeeps(c: Settings, root: real -> real, w: World, idx: nat, sym: nat)
    requires idx < |c.nodes| && CoreInv(c, w)
    ensures CoreInv(c, LetGoNode(c, root, w, idx, sym))
  {
    hide UpdateWheel, NodesOk;
    var w1 := w.(s := w.s.(steerKeys := w.s.steerKeys - {sym}));
    NodesFrame(c, w.s, w1.s, w.trace, w.threads);
    if c.nodes[idx].SteerWheel? {
      WheelKeeps(c, root, w1, c.nodes[idx]);
    }
  }

  lemma RecenterKeeps(c: Settings, w: World, cmd: Command)
    requires CoreInv(c, w) && w.s.mouseActive && cmd.Touch? && cmd.ptr == PTR_AIM && cmd.kind == Up
    ensures CoreInv(c, Emit(w, cmd).(s := w.s.(mouseActive := false, accX := 0.0, accY := 0.0)))
  {
    hide NodesOk;
    EmitFixed(c, w.s, w.trace, w.threads, cmd);
    NodesFrame(c, w.s, w.s.(mouseActive := false, accX := 0.0, accY := 0.0), w.trace + [cmd], w.threads);
    Snoc(w.trace, cmd, PTR_STEER);
    Snoc(w.trace, cmd, PTR_AIM);
  }

  ghost predicate SameAim(w: World, w': World) {
    && w'.tasks == w.tasks
    && w'.s.accX == w.s.accX && w'.s.accY == w.s.accY && w'.s.mouseActive == w.s.mouseActive
  }

  lemma WheelLeavesAim(c: Settings, root: real -> real, w: World, node: Node)
    requires node.SteerWheel?
    ensures SameAim(w, UpdateWheel(c, root, w, node))
  {
    hide Displacement, TouchAt, HeldKeys;
  }

  /** A key's node leaves aim alone. */
  lemma PressLeavesAim(c: Settings, root: real -> real, w: World, idx: nat, sym: nat)
    requires idx < |c.nodes|
    ensures SameAim(w, PressNode(c, root, w, idx, sym))
  {
    hide TouchAt, NamesKey, UpdateWheel, Pixel;
    if c.nodes[idx].SteerWheel? {
      WheelLeavesAim(c, root, w.(s := w.s.(steerKeys := w.s.steerKeys + {sym})), c.nodes[idx]);
    }
  }

  lemma LetGoLeavesAim(c: Settings, root: real -> real, w: World, idx: nat, sym: nat)
    requires idx < |c.nodes|
    ensures SameAim(w, LetGoNode(c, root, w, idx, sym))
  {
    hide UpdateWheel;
    if c.nodes[idx].SteerWheel? {
      WheelLeavesAim(c, root, w.(s := w.s.(steerKeys := w.s.steerKeys - {sym})), c.nodes[idx]);
    }
  }

  /** A key's tasks come without a recentring, and the rest of them still fit. */
  lemma RestFits(c: Settings, s: State, tasks: seq<Task>)
    requires TaskFits(c, s, tasks) && AimNear(s, tasks) && tasks != [] && !tasks[0].Recenter?
    ensures TaskFits(c, s, tasks[1..]) && AimNear(s, tasks[1..]) && !FarOff(s.accX) && !FarOff(s.accY)
    ensures forall i :: 0 <= i < |tasks| ==> !tasks[i].Recenter?
  {
    forall i | 0 <= i < |tasks|
      ensures !tasks[i].Recenter?
    {
      assert tasks[i].Recenter? ==> |tasks| == 1;
    }
  }

  lemma SameAimFits(c: Settings, w: World, w': World)
    requires SameAim(w, w') && TaskFits(c, w.s, w.tasks) && AimNear(w.s, w.tasks)
    ensures TaskFits(c, w'.s, w'.tasks) && AimNear(w'.s, w'.tasks)
  {
  }

  lemma TaskKeeps(c: Settings, root: real -> real, w: World)
    requires Inv(c, w) && w.tasks != []
    ensures Inv(c, RunTask(c, root, w))
  {
    var rest, w' := w.(tasks := w.tasks[1..]), RunTask(c, root, w);
    assert CoreInv(c, rest);
    hide NodesOk, PressNode, LetGoNode, FixedOk, CoreInv, AimNear, TaskFits, SameAim;
    match w.tasks[0] {
      case Press(idx, sym) =>
        RestFits(c, w.s, w.tasks);
        assert idx < |c.nodes|;
        PressKeeps(c, root, rest, idx, sym);
        PressLeavesAim(c, root, rest, idx, sym);
        SameAimFits(c, rest, w');
      case LetGo(idx, sym) =>
        RestFits(c, w.s, w.tasks);
        assert idx < |c.nodes|;
        LetGoKeeps(c, root, rest, idx, sym);
        LetGoLeavesAim(c, root, rest, idx, sym);
        SameAimFits(c, rest, w');
      case Recenter(x, y) =>
        OnlyRecenter(c, w.s, w.tasks);
        RecenterKeeps(c, rest, Touch(Up, PTR_AIM, x, y, w.s.w, w.s.h));
        NothingLeft(c, w'.s);
    }
    CoreAgain(c, w');
  }

  lemma OnlyRecenter(c: Settings, s: State, tasks: seq<Task>)
    requires TaskFits(c, s, tasks) && tasks != [] && tasks[0].Recenter?
    ensures s.mouseActive && tasks[1..] == []
  {
  }

  lemma NothingLeft(c: Settings, s: State)
    requires s.accX == 0.0 && s.accY == 0.0
    ensures TaskFits(c, s, []) && AimNear(s, [])
  {
  }

  lemma CoreAgain(c: Settings, w: World)
    requires CoreInv(c, w)
    ensures NodesOk(c, w.s, w.trace, w.threads)
    ensures PhaseOf(w.trace, PTR_STEER) == Expected(w.s.steerActive)
    ensures PhaseOf(w.trace, PTR_AIM) == Expected(w.s.mouseActive)
  {
  }

  // ----- releasing everything -----

  function Cleared(s: State, order: seq<nat>): State {
    s.(toggles := map i | i in s.toggles :: s.toggles[i] && i !in order)
  }

  /** Walking the toggle table lifts each held pointer once and touches no other. */
  lemma {:induction false} ToggleUpsRelease(c: Settings, s: State, trace: Trace, threads: seq<Thread>, order: seq<nat>)
    requires NodesOk(c, s, trace, threads)
    requires forall i, j :: 0 <= i < j < |order| ==> order[i] != order[j]
    ensures NodesOk(c, Cleared(s, order), trace + ToggleUps(c, s, order), threads)
    ensures forall p: nat :: p < PTR_BASE ==> PhaseOf(trace + ToggleUps(c, s, order), p) == PhaseOf(trace, p)
  {
    if order == [] {
      assert Cleared(s, order).toggles == s.toggles;
      assert trace + [] == trace;
      NodesFrame(c, s, Cleared(s, order), trace, threads);
    } else {
      hide NodesOk, Cleared, PhaseOf;
      var last := |order| - 1;
      var before, idx := order[..last], order[last];
      ToggleUpsRelease(c, s, trace, threads, before);
      ClearOne(c, s, trace + ToggleUps(c, s, before), threads, before, idx);
      assert before + [idx] == order;
      JoinTrace(trace, ToggleUps(c, s, before), ToggleUp(c, s, idx));
      assert ToggleUps(c, s, order) == ToggleUps(c, s, before) + ToggleUp(c, s, idx);
    }
  }

  lemma JoinTrace(a: Trace, b: Trace, d: Trace)
    ensures a + (b + d) == a + b + d
  {
  }

  function ToggleUp(c: Settings, s: State, idx: nat): Trace {
    if HeldDown(s, idx) && idx < |c.nodes| && c.nodes[idx].ClickTwice? then
      [TouchAt(Up, if idx in s.pointers then s.pointers[idx] else PTR_BASE, c.nodes[idx].pos, s)]
    else []
  }

  lemma ClearOne(c: Settings, s: State, trace: Trace, threads: seq<Thread>, before: seq<nat>, idx: nat)
    requires NodesOk(c, Cleared(s, before), trace, threads) && idx !in before
    ensures NodesOk(c, Cleared(s, before + [idx]), trace + ToggleUp(c, s, idx), threads)
    ensures forall p: nat :: p < PTR_BASE ==> PhaseOf(trace + ToggleUp(c, s, idx), p) == PhaseOf(trace, p)
  {
    var s1, s2 := Cleared(s, before), Cleared(s, before + [idx]);
    if HeldDown(s, idx) {
      assert HeldDown(s1, idx) && idx in s1.toggles && idx in s1.pointers && c.nodes[idx].ClickTwice?;
      var cmd := TouchAt(Up, s.pointers[idx], c.nodes[idx].pos, s);
      assert s2 == s1.(toggles := s1.toggles[idx := false]);
      assert cmd.ptr >= PTR_BASE;
      hide NodesOk, Cleared, Pixel;
      EmitToggle(c, s1, trace, threads, idx, cmd);
      forall p: nat | p < PTR_BASE
        ensures PhaseOf(trace + [cmd], p) == PhaseOf(trace, p)
      {
        Snoc(trace, cmd, p);
      }
    } else {
      assert s2.toggles == s1.toggles;
      assert trace + [] == trace;
    }
  }

  lemma DropToggles(c: Settings, s: State, s': State, trace: Trace, threads: seq<Thread>)
    requires NodesOk(c, s, trace, threads) && forall i :: i in s.toggles ==> !s.toggles[i]
    requires s'.pointers == s.pointers && s'.toggles == map[] && s'.nextPointer == s.nextPointer
    ensures NodesOk(c, s', trace, threads)
  {
    forall i | i in s'.pointers
      ensures ToggleTruthful(c, s', trace, i)
    {
      assert ToggleTruthful(c, s, trace, i);
    }
    forall i | i in s'.pointers && i < |c.nodes| && Threaded(c.nodes[i])
      ensures Settled(s', trace, threads, i)
    {
      assert Settled(s, trace, threads, i);
    }
    forall i | 0 <= i < |threads|
      ensures ThreadFits(c, s', threads[i])
    {
      FitsMore(c, s, s', threads[i]);
    }
  }

  lemma FixedUps(c: Settings, s: State, trace: Trace, threads: seq<Thread>)
    requires NodesOk(c, s, trace, threads) && FixedOk(s, trace)
    ensures var trace' := trace + SteerUp(c, s) + AimUp(c, s);
            && NodesOk(c, s, trace', threads)
            && PhaseOf(trace', PTR_STEER) == PhaseOf(trace', PTR_AIM) == Lifted
            && PhaseOf(trace', PTR_FIRE) == PhaseOf(trace, PTR_FIRE)
  {
    hide NodesOk, Pixel;
    var t1 := trace + SteerUp(c, s);
    if s.steerActive {
      EmitFixed(c, s, trace, threads, SteerUp(c, s)[0]);
      forall p: nat {
        Snoc(trace, SteerUp(c, s)[0], p);
      }
    } else {
      assert t1 == trace;
    }
    if s.mouseActive {
      EmitFixed(c, s, t1, threads, AimUp(c, s)[0]);
      forall p: nat {
        Snoc(t1, AimUp(c, s)[0], p);
      }
    } else {
      assert t1 + AimUp(c, s) == t1;
    }
  }

  /** Nothing that a flag speaks for is down. */
  ghost predicate AllLifted(c: Settings, w: World) {
    && PhaseOf(w.trace, PTR_STEER) == Lifted
    && PhaseOf(w.trace, PTR_AIM) == Lifted
    && (forall i :: i in w.s.pointers && i < |c.nodes| && c.nodes[i].ClickTwice? ==> PhaseOf(w.trace, w.s.pointers[i]) == Lifted)
  }

  lemma ReleaseAllLifts(c: Settings, w: World, order: seq<nat>)
    requires CoreInv(c, w) && IsWalk(order, w.s.toggles)
    ensures var w' := ReleaseAll(c, w, order);
            && CoreInv(c, w') && AllLifted(c, w')
            && PhaseOf(w'.trace, PTR_FIRE) == PhaseOf(w.trace, PTR_FIRE)
  {
    var s, w' := w.s, ReleaseAll(c, w, order);
    var t1 := w.trace + SteerUp(c, s) + AimUp(c, s);
    FixedUps(c, s, w.trace, w.threads);
    ToggleUpsRelease(c, s, t1, w.threads, order);
    DropToggles(c, Cleared(s, order), w'.s, w'.trace, w.threads);
    forall i | i in w'.s.pointers && i < |c.nodes| && c.nodes[i].ClickTwice?
      ensures PhaseOf(w'.trace, w'.s.pointers[i]) == Lifted
    {
      assert ToggleTruthful(c, w'.s, w'.trace, i);
    }
  }
}
