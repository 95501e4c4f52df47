/** A receiver of slotted ("type B") multi-touch events, as the Linux kernel's "Multi-touch (MT) Protocol" describes it. */
module TouchReceiver {
  import opened Evdev

  /** A non-negative id is a contact; -1 is an unused slot. */
  datatype Contact = Contact(id: int, x: int, y: int) {
    predicate Live() {
      id >= 0
    }
  }

  /**
   What the guest makes of the events so far: the touch slots, with all ids given to contacts, oldest
   first; the absolute position; the sums of relative motion and scrolling; the keys held.
   */
  datatype Receiver = Receiver(
    slot: int, contacts: map<int, Contact>, ids: seq<int>,
    absX: int, absY: int, relX: int, relY: int, wheel: int, hwheel: int,
    held: set<int>)

  const FRESH := Receiver(0, map[], [], 0, 0, 0, 0, 0, 0, {})

  function At(r: Receiver, slot: int): Contact {
    if slot in r.contacts then r.contacts[slot] else Contact(-1, 0, 0)
  }

  function Noted(id: int): seq<int> {
    if id == -1 then [] else [id]
  }

  function ApplyAbs(r: Receiver, code: u16, value: i32): Receiver {
    if code == ABS_MT_SLOT then r.(slot := value)
    else if code == ABS_MT_TRACKING_ID then
      r.(contacts := r.contacts[r.slot := At(r, r.slot).(id := value)], ids := r.ids + Noted(value))
    else if code == ABS_MT_POSITION_X then r.(contacts := r.contacts[r.slot := At(r, r.slot).(x := value)])
    else if code == ABS_MT_POSITION_Y then r.(contacts := r.contacts[r.slot := At(r, r.slot).(y := value)])
    else if code == ABS_X then r.(absX := value)
    else if code == ABS_Y then r.(absY := value)
    else r
  }

  function ApplyRel(r: Receiver, code: u16, value: i32): Receiver {
    if code == REL_X then r.(relX := r.relX + value)
    else if code == REL_Y then r.(relY := r.relY + value)
    else if code == REL_WHEEL then r.(wheel := r.wheel + value)
    else if code == REL_HWHEEL then r.(hwheel := r.hwheel + value)
    else r
  }

  function Apply(r: Receiver, e: InputEvent): Receiver {
    if e.eventType == EV_ABS then ApplyAbs(r, e.code, e.value)
    else if e.eventType == EV_REL then ApplyRel(r, e.code, e.value)
    else if e.eventType == EV_KEY then r.(held := if e.value == 0 then r.held - {e.code} else r.held + {e.code})
    else r
  }

  function Replay(r: Receiver, events: seq<InputEvent>): Receiver
    decreases |events|
  {
    if events == [] then r else Replay(Apply(r, events[0]), events[1..])
  }

  lemma {:induction false} ReplayJoin(r: Receiver, a: seq<InputEvent>, b: seq<InputEvent>)
    ensures Replay(r, a + b) == Replay(Replay(r, a), b)
    decreases |a|
  {
    hide Apply;
    if a == [] {
      assert a + b == b;
    } else {
      assert (a + b)[0] == a[0] && (a + b)[1..] == a[1..] + b;
      ReplayJoin(Apply(r, a[0]), a[1..], b);
    }
  }

  predicate ConcernsTouch(e: InputEvent) {
    e.eventType == EV_ABS && e.code in {ABS_MT_SLOT, ABS_MT_TRACKING_ID, ABS_MT_POSITION_X, ABS_MT_POSITION_Y}
  }

  predicate SameTouch(a: Receiver, b: Receiver) {
    a.slot == b.slot && a.contacts == b.contacts && a.ids == b.ids
  }

  lemma {:induction false} OtherEvents(r: Receiver, events: seq<InputEvent>)
    requires forall i :: 0 <= i < |events| ==> !ConcernsTouch(events[i])
    ensures SameTouch(Replay(r, events), r)
    decreases |events|
  {
    if events != [] {
      assert !ConcernsTouch(events[0]);
      OtherEvents(Apply(r, events[0]), events[1..]);
    }
  }

  predicate MovesPointer(e: InputEvent) {
    e.eventType == EV_REL && e.code in {REL_X, REL_Y}
  }

  lemma {:induction false} NoMotion(r: Receiver, events: seq<InputEvent>)
    requires forall i :: 0 <= i < |events| ==> !MovesPointer(events[i])
    ensures Replay(r, events).relX == r.relX && Replay(r, events).relY == r.relY
    decreases |events|
  {
    if events != [] {
      assert !MovesPointer(events[0]);
      NoMotion(Apply(r, events[0]), events[1..]);
    }
  }

  function Abs(code: u16, value: i32): InputEvent {
    InputEvent(EV_ABS, code, value)
  }

  function PutDown(slot: i32, id: i32, x: i32, y: i32): seq<InputEvent> {
    [Abs(ABS_MT_SLOT, slot), Abs(ABS_MT_TRACKING_ID, id), Abs(ABS_MT_POSITION_X, x), Abs(ABS_MT_POSITION_Y, y)]
  }

  function MoveTo(slot: i32, x: i32, y: i32): seq<InputEvent> {
    [Abs(ABS_MT_SLOT, slot), Abs(ABS_MT_POSITION_X, x), Abs(ABS_MT_POSITION_Y, y)]
  }

  function Lift(slot: i32): seq<InputEvent> {
    [Abs(ABS_MT_SLOT, slot), Abs(ABS_MT_TRACKING_ID, -1)]
  }

  lemma ReplayTwo(r: Receiver, a: InputEvent, b: InputEvent)
    ensures Replay(r, [a, b]) == Apply(Apply(r, a), b)
  {
    hide Apply;
    assert [a, b][1..] == [b] && [b][1..] == [];
    assert Replay(Apply(r, a), [b]) == Replay(Apply(Apply(r, a), b), []);
  }

  lemma PutDownEffect(r: Receiver, slot: i32, id: i32, x: i32, y: i32)
    ensures Replay(r, PutDown(slot, id, x, y))
         == r.(slot := slot, contacts := r.contacts[slot := Contact(id, x, y)], ids := r.ids + Noted(id))
  {
    var a, b := [Abs(ABS_MT_SLOT, slot), Abs(ABS_MT_TRACKING_ID, id)], [Abs(ABS_MT_POSITION_X, x), Abs(ABS_MT_POSITION_Y, y)];
    assert PutDown(slot, id, x, y) == a + b;
    ReplayJoin(r, a, b);
    ReplayTwo(r, a[0], a[1]);
    ReplayTwo(Replay(r, a), b[0], b[1]);
    hide Replay, PutDown;
    assert Replay(r, a).contacts == r.contacts[slot := At(r, slot).(id := id)];
  }

  lemma MoveToEffect(r: Receiver, slot: i32, x: i32, y: i32)
    ensures Replay(r, MoveTo(slot, x, y)) == r.(slot := slot, contacts := r.contacts[slot := At(r, slot).(x := x, y := y)])
  {
    var a, b := [Abs(ABS_MT_SLOT, slot)], [Abs(ABS_MT_POSITION_X, x), Abs(ABS_MT_POSITION_Y, y)];
    assert MoveTo(slot, x, y) == a + b;
    ReplayJoin(r, a, b);
    ReplayTwo(Apply(r, a[0]), b[0], b[1]);
    assert a[1..] == [];
  }

  lemma LiftEffect(r: Receiver, slot: i32)
    ensures Replay(r, Lift(slot)) == r.(slot := slot, contacts := r.contacts[slot := At(r, slot).(id := -1)])
  {
    ReplayTwo(r, Abs(ABS_MT_SLOT, slot), Abs(ABS_MT_TRACKING_ID, -1));
  }
}
