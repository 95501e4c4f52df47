/** Host input as batches of Linux input events. */
module Translate {
  import opened Numbers
  import opened Coordinate
  import opened Evdev
  import opened TouchReceiver

  datatype MouseButton = Left | Right

  datatype PinchState = Idle | Active

  class MultiTouchState {
    var pinch: PinchState
    var nextTrackingId: i32
    var slot0Active: bool
    var slot1Active: bool

    constructor ()
      ensures pinch == Idle && nextTrackingId == 0 && !slot0Active && !slot1Active
    {
      pinch, nextTrackingId, slot0Active, slot1Active := Idle, 0, false, false;
    }

    method AllocTrackingId() returns (id: i32)
      modifies `nextTrackingId
      ensures id == old(nextTrackingId) && nextTrackingId == WrapI32(id + 1)
    {
      id := nextTrackingId;
      nextTrackingId := WrapI32(nextTrackingId + 1);
    }
  }

  function Key(code: u16, value: i32): InputEvent {
    InputEvent(EV_KEY, code, value)
  }

  function Rel(code: u16, value: i32): InputEvent {
    InputEvent(EV_REL, code, value)
  }

  function TranslateKey(keycode: u16, pressed: bool): seq<InputEvent> {
    [Key(keycode, if pressed then 1 else 0), SYN]
  }

  function TranslateMotion(gx: i32, gy: i32): seq<InputEvent> {
    [Abs(ABS_X, gx), Abs(ABS_Y, gy), SYN]
  }

  function TranslateLeftClickPress(gx: i32, gy: i32): seq<InputEvent> {
    [Key(BTN_TOUCH, 1), Abs(ABS_X, gx), Abs(ABS_Y, gy), SYN]
  }

  function TranslateLeftClickRelease(): seq<InputEvent> {
    [Key(BTN_TOUCH, 0), SYN]
  }

  function TranslateRightClick(): seq<InputEvent> {
    [Key(KEY_BACK, 1), SYN, Key(KEY_BACK, 0), SYN]
  }

  function TranslateRelativeMotion(dx: i32, dy: i32): seq<InputEvent> {
    [Rel(REL_X, dx), Rel(REL_Y, dy), SYN]
  }

  /** `f64::EPSILON`, 2 to the power -52. */
  const EPSILON: real := 1.0 / 4503599627370496.0

  predicate Scrolls(d: real) {
    d > EPSILON || d < -EPSILON
  }

  function WheelEvents(code: u16, d: real): seq<InputEvent> {
    if Scrolls(d) then [Rel(code, SatI32(Round(d))), SYN] else []
  }

  method TranslateScroll(dx: real, dy: real) returns (events: seq<InputEvent>)
    ensures events == WheelEvents(REL_WHEEL, dy) + WheelEvents(REL_HWHEEL, dx)
  {
    events := [];
    if Scrolls(dy) {
      events := events + [Rel(REL_WHEEL, SatI32(Round(dy)))];
      events := events + [SYN];
    }
    if Scrolls(dx) {
      events := events + [Rel(REL_HWHEEL, SatI32(Round(dx)))];
      events := events + [SYN];
    }
  }

  // ----- pinches -----

  /** Slot 0 at the pointer, slot 1 mirrored across the screen's centre. */
  function PinchBegin(gx: i32, gy: i32, mx: i32, my: i32, id0: i32, id1: i32): seq<InputEvent> {
    PutDown(0, id0, gx, gy) + PutDown(1, id1, mx, my) + [Key(BTN_TOUCH, 1), SYN]
  }

  function PinchMove(gx: i32, gy: i32, mx: i32, my: i32): seq<InputEvent> {
    MoveTo(0, gx, gy) + MoveTo(1, mx, my) + [SYN]
  }

  function PinchEnd(): seq<InputEvent> {
    Lift(0) + Lift(1) + [Key(BTN_TOUCH, 0), SYN]
  }

  predicate OnScreen(m: DisplayMetrics)
    reads m
  {
    1 <= m.guestWidth <= I32_MAX && 1 <= m.guestHeight <= I32_MAX
  }

  /** The batch for a pinch begun at a host position, with the next two tracking ids from `id`. */
  function PinchBeginAt(x: real, y: real, m: DisplayMetrics, id: i32): seq<InputEvent>
    requires OnScreen(m)
    reads m
  {
    var (gx, gy) := m.MapHostToGuest(x, y);
    PinchBegin(gx, gy, m.guestWidth - gx, m.guestHeight - gy, id, WrapI32(id + 1))
  }

  method TranslatePinchBegin(x: real, y: real, m: DisplayMetrics, mt: MultiTouchState) returns (events: seq<InputEvent>)
    requires OnScreen(m)
    modifies mt
    ensures mt.pinch == Active && mt.slot0Active && mt.slot1Active
    ensures mt.nextTrackingId == WrapI32(WrapI32(old(mt.nextTrackingId) + 1) + 1)
    ensures events == PinchBeginAt(x, y, m, old(mt.nextTrackingId))
  {
    var (gx, gy) := m.MapHostToGuest(x, y);
    var mirrorX := m.guestWidth - gx;
    var mirrorY := m.guestHeight - gy;
    mt.pinch := Active;
    var id0 := mt.AllocTrackingId();
    var id1 := mt.AllocTrackingId();
    mt.slot0Active := true;
    mt.slot1Active := true;
    events := PinchBegin(gx, gy, mirrorX, mirrorY, id0, id1);
  }

  function TranslatePinchMove(x: real, y: real, m: DisplayMetrics): seq<InputEvent>
    requires OnScreen(m)
    reads m
  {
    var (gx, gy) := m.MapHostToGuest(x, y);
    PinchMove(gx, gy, m.guestWidth - gx, m.guestHeight - gy)
  }

  method TranslatePinchEnd(mt: MultiTouchState) returns (events: seq<InputEvent>)
    modifies mt
    ensures mt.pinch == Idle && !mt.slot0Active && !mt.slot1Active && mt.nextTrackingId == old(mt.nextTrackingId)
    ensures events == PinchEnd()
  {
    mt.pinch := Idle;
    mt.slot0Active := false;
    mt.slot1Active := false;
    events := PinchEnd();
  }

  // ----- what the receiver makes of them -----

  lemma BeginEffect(r: Receiver, gx: i32, gy: i32, mx: i32, my: i32, id0: i32, id1: i32)
    ensures var r' := Replay(r, PinchBegin(gx, gy, mx, my, id0, id1));
            && At(r', 0) == Contact(id0, gx, gy) && At(r', 1) == Contact(id1, mx, my)
            && r'.ids == r.ids + Noted(id0) + Noted(id1) && r'.held == r.held + {BTN_TOUCH}
  {
    hide PutDown, Noted, Replay;
    var tail := [Key(BTN_TOUCH, 1), SYN];
    PutDownEffect(r, 0, id0, gx, gy);
    ReplayJoin(r, PutDown(0, id0, gx, gy), PutDown(1, id1, mx, my));
    var r1 := Replay(r, PutDown(0, id0, gx, gy));
    PutDownEffect(r1, 1, id1, mx, my);
    ReplayJoin(r, PutDown(0, id0, gx, gy) + PutDown(1, id1, mx, my), tail);
    ReplayTwo(Replay(r, PutDown(0, id0, gx, gy) + PutDown(1, id1, mx, my)), tail[0], tail[1]);
  }

  lemma MoveEffect(r: Receiver, gx: i32, gy: i32, mx: i32, my: i32)
    ensures var r' := Replay(r, PinchMove(gx, gy, mx, my));
            && At(r', 0) == Contact(At(r, 0).id, gx, gy) && At(r', 1) == Contact(At(r, 1).id, mx, my)
            && r'.ids == r.ids
  {
    hide MoveTo, Replay;
    MoveToEffect(r, 0, gx, gy);
    ReplayJoin(r, MoveTo(0, gx, gy), MoveTo(1, mx, my));
    var r1 := Replay(r, MoveTo(0, gx, gy));
    MoveToEffect(r1, 1, mx, my);
    ReplayJoin(r, MoveTo(0, gx, gy) + MoveTo(1, mx, my), [SYN]);
    OtherEvents(Replay(r, MoveTo(0, gx, gy) + MoveTo(1, mx, my)), [SYN]);
  }

  lemma EndEffect(r: Receiver)
    ensures var r' := Replay(r, PinchEnd());
            At(r', 0).id == -1 && At(r', 1).id == -1 && r'.ids == r.ids && r'.held == r.held - {BTN_TOUCH}
  {
    hide Lift, Replay;
    var tail := [Key(BTN_TOUCH, 0), SYN];
    LiftEffect(r, 0);
    ReplayJoin(r, Lift(0), Lift(1));
    LiftEffect(Replay(r, Lift(0)), 1);
    ReplayJoin(r, Lift(0) + Lift(1), tail);
    ReplayTwo(Replay(r, Lift(0) + Lift(1)), tail[0], tail[1]);
  }

  predicate SamePlace(a: Receiver, b: Receiver) {
    a.relX == b.relX && a.relY == b.relY
  }

  /** No batch of a pinch moves the pointer. */
  lemma BeginMovesNothing(r: Receiver, gx: i32, gy: i32, mx: i32, my: i32, id0: i32, id1: i32)
    ensures SamePlace(Replay(r, PinchBegin(gx, gy, mx, my, id0, id1)), r)
  {
    NoMotion(r, PinchBegin(gx, gy, mx, my, id0, id1));
  }

  lemma MoveMovesNothing(r: Receiver, gx: i32, gy: i32, mx: i32, my: i32)
    ensures SamePlace(Replay(r, PinchMove(gx, gy, mx, my)), r)
  {
    NoMotion(r, PinchMove(gx, gy, mx, my));
  }

  lemma EndMovesNothing(r: Receiver)
    ensures SamePlace(Replay(r, PinchEnd()), r)
  {
    NoMotion(r, PinchEnd());
  }

  // ----- plain batches -----

  lemma ReplayStep(r: Receiver, e: InputEvent, rest: seq<InputEvent>)
    ensures Replay(r, [e] + rest) == Replay(Apply(r, e), rest)
  {
    assert ([e] + rest)[1..] == rest;
  }

  lemma ReplayBatch(r: Receiver, a: InputEvent, b: InputEvent, c: InputEvent, d: InputEvent)
    ensures Replay(r, [a, b]) == Apply(Apply(r, a), b)
    ensures Replay(r, [a, b, c]) == Apply(Apply(Apply(r, a), b), c)
    ensures Replay(r, [a, b, c, d]) == Apply(Apply(Apply(Apply(r, a), b), c), d)
  {
    hide Apply;
    ReplayTwo(r, a, b);
    ReplayTwo(Apply(r, a), b, c);
    ReplayTwo(Apply(Apply(r, a), b), c, d);
    assert [a, b, c] == [a] + [b, c] && [a, b, c, d] == [a] + ([b] + [c, d]);
    ReplayStep(r, a, [b, c]);
    ReplayStep(r, a, [b] + [c, d]);
    ReplayStep(Apply(r, a), b, [c, d]);
  }

  /** The batch's last event tells the reader that it is complete. */
  predicate Reports(events: seq<InputEvent>) {
    events != [] && events[|events| - 1] == SYN
  }

  /** Every batch ends with a report, and a press is reported before its release. */
  lemma BatchesReport(x: i32, y: i32, mx: i32, my: i32, id0: i32, id1: i32, keycode: u16, pressed: bool, d: real)
    ensures Reports(TranslateKey(keycode, pressed)) && Reports(TranslateMotion(x, y)) && Reports(TranslateRelativeMotion(x, y))
    ensures Reports(TranslateLeftClickPress(x, y)) && Reports(TranslateLeftClickRelease())
    ensures Reports(TranslateRightClick()) && Reports(TranslateRightClick()[..2])
    ensures Reports(PinchBegin(x, y, mx, my, id0, id1)) && Reports(PinchMove(x, y, mx, my)) && Reports(PinchEnd())
    ensures Scrolls(d) ==> Reports(WheelEvents(REL_WHEEL, d)) && Reports(WheelEvents(REL_HWHEEL, d))
  {
  }

  /** Free motion puts the pointer where it was mapped to; grabbed motion moves it by the deltas. */
  lemma MotionEffect(r: Receiver, x: i32, y: i32)
    ensures Replay(r, TranslateMotion(x, y)) == r.(absX := x, absY := y)
    ensures Replay(r, TranslateRelativeMotion(x, y)) == r.(relX := r.relX + x, relY := r.relY + y)
  {
    ReplayBatch(r, Abs(ABS_X, x), Abs(ABS_Y, y), SYN, SYN);
    ReplayBatch(r, Rel(REL_X, x), Rel(REL_Y, y), SYN, SYN);
  }

  /** A press touches at the position, a release lifts, and a right click has pressed and released the back key. */
  lemma ClickEffect(r: Receiver, x: i32, y: i32)
    ensures Replay(r, TranslateLeftClickPress(x, y)) == r.(held := r.held + {BTN_TOUCH}, absX := x, absY := y)
    ensures Replay(r, TranslateLeftClickRelease()) == r.(held := r.held - {BTN_TOUCH})
    ensures KEY_BACK in Replay(r, TranslateRightClick()[..2]).held
    ensures Replay(r, TranslateRightClick()) == r.(held := r.held - {KEY_BACK})
  {
    ReplayBatch(r, Key(BTN_TOUCH, 1), Abs(ABS_X, x), Abs(ABS_Y, y), SYN);
    ReplayBatch(r, Key(BTN_TOUCH, 0), SYN, SYN, SYN);
    ReplayBatch(r, Key(KEY_BACK, 1), SYN, Key(KEY_BACK, 0), SYN);
    assert r.held + {KEY_BACK} - {KEY_BACK} == r.held - {KEY_BACK};
    assert TranslateRightClick()[..2] == [Key(KEY_BACK, 1), SYN];
    ReplayTwo(r, Key(KEY_BACK, 1), SYN);
  }

  lemma KeyEffect(r: Receiver, keycode: u16, pressed: bool)
    ensures Replay(r, TranslateKey(keycode, pressed)) == r.(held := if pressed then r.held + {keycode} else r.held - {keycode})
  {
    ReplayTwo(r, Key(keycode, if pressed then 1 else 0), SYN);
  }

  /** How far a scroll of d turns a wheel: the rounded distance, beyond the threshold. */
  function Turns(d: real): i32 {
    if Scrolls(d) then SatI32(Round(d)) else 0
  }

  /** Within the 32-bit range a wheel turns by the distance to within a half, in its direction. */
  lemma TurnsNear(d: real)
    requires I32_MIN as real <= d <= I32_MAX as real
    ensures -0.5 <= Turns(d) as real - d <= 0.5
    ensures (d > 0.0 ==> Turns(d) >= 0) && (d < 0.0 ==> Turns(d) <= 0)
  {
    RoundNear(d);
    RoundMonotone(I32_MIN as real, d);
    RoundMonotone(d, I32_MAX as real);
    RoundInt(I32_MIN);
    RoundInt(I32_MAX);
  }

  lemma ScrollEffect(r: Receiver, dx: real, dy: real)
    ensures Replay(r, WheelEvents(REL_WHEEL, dy) + WheelEvents(REL_HWHEEL, dx))
         == r.(wheel := r.wheel + Turns(dy), hwheel := r.hwheel + Turns(dx))
  {
    var v, h := WheelEvents(REL_WHEEL, dy), WheelEvents(REL_HWHEEL, dx);
    ReplayJoin(r, v, h);
    if Scrolls(dy) {
      ReplayTwo(r, v[0], SYN);
    }
    if Scrolls(dx) {
      ReplayTwo(Replay(r, v), h[0], SYN);
    }
  }

  // ----- tracking ids -----

  /** The ids handed out, in order, by the pinches after the first `already` up to the n-th. */
  function IdsSince(already: nat, n: nat): seq<int> {
    if n <= already then []
    else IdsSince(already, n - 1) + Noted(WrapI32(2 * n - 2)) + Noted(WrapI32(2 * n - 1))
  }

  lemma WrapStep(k: nat)
    ensures WrapI32(WrapI32(k) + 1) == WrapI32(k + 1)
  {
  }

  /** Up to 2^30 pinches, the ids are consecutive numbers from 0 on, without a repetition. */
  lemma {:induction false} IdsAreFresh(already: nat, n: nat)
    requires already <= n <= 0x4000_0000
    ensures |IdsSince(already, n)| == 2 * (n - already)
    ensures forall i :: 0 <= i < 2 * (n - already) ==> IdsSince(already, n)[i] == 2 * already + i
    decreases n
  {
    if n > already {
      IdsAreFresh(already, n - 1);
    }
  }

  lemma WrapShift(q: nat, r: nat)
    requires r < 0x1_0000_0000
    ensures WrapI32(q * 0x1_0000_0000 + r) == if r > I32_MAX then r - 0x1_0000_0000 else r
  {
  }

  /** Exactly when both ids of the n-th pinch are contacts. */
  lemma IdsLiveIff(n: nat)
    requires n >= 1
    ensures WrapI32(2 * n - 2) >= 0 && WrapI32(2 * n - 1) >= 0 <==> (n - 1) % 0x8000_0000 < 0x4000_0000
    ensures WrapI32(2 * n - 2) != WrapI32(2 * n - 1)
  {
    var q, r := (n - 1) / 0x8000_0000, (n - 1) % 0x8000_0000;
    hide WrapI32;
    assert 2 * n - 2 == q * 0x1_0000_0000 + 2 * r && 2 * n - 1 == q * 0x1_0000_0000 + (2 * r + 1);
    WrapShift(q, 2 * r);
    WrapShift(q, 2 * r + 1);
  }
}
