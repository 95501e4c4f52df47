/** The input manager: host events in, bytes on the guest's input socket out. */
module InputManager {
  import opened Wrappers
  import opened Bytes
  import opened Numbers
  import opened Coordinate
  import opened Evdev
  import opened Grab
  import opened TouchReceiver
  import opened Translate

  datatype InputError = SocketConnect | SocketWrite | MetricsPoisoned

  type Outcome = Result<(), InputError>

  /**
   What a receiver makes of the events since a connection, before which `already` pinches were begun: an
   active pinch begun since is two contacts with the ids of the latest pinch, mirrored across the screen it
   was drawn on; without one both slots are empty.
   */
  ghost predicate Truthful(r: Receiver, pinch: PinchState, already: nat, pinches: nat, screen: (int, int)) {
    && already <= pinches
    && r.ids == IdsSince(already, pinches)
    && (pinch == Active && pinches > already ==>
          && At(r, 0).id == WrapI32(2 * pinches - 2) && At(r, 1).id == WrapI32(2 * pinches - 1)
          && At(r, 0).x + At(r, 1).x == screen.0 && At(r, 0).y + At(r, 1).y == screen.1
          && 0 <= At(r, 0).x < screen.0 && 0 <= At(r, 0).y < screen.1)
    && (pinch == Idle || pinches == already ==> At(r, 0).id == -1 && At(r, 1).id == -1)
  }

  function LastSent(sent: seq<int>): int {
    if sent == [] then 0 else sent[|sent| - 1]
  }

  // ----- what single batches do to the receiver -----

  lemma Shown(before: seq<InputEvent>, events: seq<InputEvent>)
    ensures Replay(FRESH, before + events) == Replay(Replay(FRESH, before), events)
  {
    ReplayJoin(FRESH, before, events);
  }

  lemma MotionShown(before: seq<InputEvent>, x: i32, y: i32)
    ensures Replay(FRESH, before + TranslateMotion(x, y)) == Replay(FRESH, before).(absX := x, absY := y)
    ensures var was := Replay(FRESH, before);
            Replay(FRESH, before + TranslateRelativeMotion(x, y)) == was.(relX := was.relX + x, relY := was.relY + y)
  {
    hide Replay, TranslateMotion, TranslateRelativeMotion;
    Shown(before, TranslateMotion(x, y));
    Shown(before, TranslateRelativeMotion(x, y));
    MotionEffect(Replay(FRESH, before), x, y);
  }

  lemma ClickShown(before: seq<InputEvent>, x: i32, y: i32)
    ensures var was := Replay(FRESH, before);
            && Replay(FRESH, before + TranslateLeftClickPress(x, y)) == was.(held := was.held + {BTN_TOUCH}, absX := x, absY := y)
            && Replay(FRESH, before + TranslateLeftClickRelease()) == was.(held := was.held - {BTN_TOUCH})
  {
    hide Replay, TranslateLeftClickPress, TranslateLeftClickRelease;
    Shown(before, TranslateLeftClickPress(x, y));
    Shown(before, TranslateLeftClickRelease());
    ClickEffect(Replay(FRESH, before), x, y);
  }

  /** Two contacts: the first where a host position is mapped to, the second mirrored across the guest's screen. */
  ghost predicate ContactsAt(r: Receiver, m: DisplayMetrics, x: real, y: real, id0: int, id1: int)
    requires OnScreen(m)
    reads m
  {
    var (gx, gy) := m.MapHostToGuest(x, y);
    At(r, 0) == Contact(id0, gx, gy) && At(r, 1) == Contact(id1, m.guestWidth - gx, m.guestHeight - gy)
  }

  lemma BeginShown(before: seq<InputEvent>, m: DisplayMetrics, x: real, y: real, id: i32)
    requires OnScreen(m)
    ensures var was, now := Replay(FRESH, before), Replay(FRESH, before + PinchBeginAt(x, y, m, id));
            ContactsAt(now, m, x, y, id, WrapI32(id + 1)) && now.held == was.held + {BTN_TOUCH}
  {
    hide Replay, PinchBegin, WrapI32, MapAxis, At;
    var (gx, gy) := m.MapHostToGuest(x, y);
    Shown(before, PinchBeginAt(x, y, m, id));
    BeginEffect(Replay(FRESH, before), gx, gy, m.guestWidth - gx, m.guestHeight - gy, id, WrapI32(id + 1));
  }

  lemma MoveShown(before: seq<InputEvent>, m: DisplayMetrics, x: real, y: real)
    requires OnScreen(m)
    ensures var was, now := Replay(FRESH, before), Replay(FRESH, before + TranslatePinchMove(x, y, m));
            ContactsAt(now, m, x, y, At(was, 0).id, At(was, 1).id)
  {
    hide Replay, PinchMove, MapAxis, At;
    var (gx, gy) := m.MapHostToGuest(x, y);
    Shown(before, TranslatePinchMove(x, y, m));
    MoveEffect(Replay(FRESH, before), gx, gy, m.guestWidth - gx, m.guestHeight - gy);
  }

  lemma EndShown(before: seq<InputEvent>)
    ensures var was, now := Replay(FRESH, before), Replay(FRESH, before + PinchEnd());
            At(now, 0).id == -1 && At(now, 1).id == -1 && now.held == was.held - {BTN_TOUCH}
  {
    hide Replay, PinchEnd, At;
    Shown(before, PinchEnd());
    EndEffect(Replay(FRESH, before));
  }

  lemma TruthfulFrame(a: Receiver, b: Receiver, pinch: PinchState, already: nat, pinches: nat, screen: (int, int))
    requires Truthful(a, pinch, already, pinches, screen) && SameTouch(a, b)
    ensures Truthful(b, pinch, already, pinches, screen)
  {
  }

  /** A pinch begun, while idle or already active, is two new contacts. */
  lemma BeginTruthful(r: Receiver, pinch: PinchState, already: nat, n: nat, screen: (int, int),
                      gx: i32, gy: i32, w: i32, h: i32)
    requires Truthful(r, pinch, already, n, screen) && 0 <= gx < w && 0 <= gy < h
    ensures var r' := Replay(r, PinchBegin(gx, gy, w - gx, h - gy, WrapI32(2 * n), WrapI32(2 * n + 1)));
            Truthful(r', Active, already, n + 1, (w, h))
  {
    hide WrapI32;
    assert IdsSince(already, n + 1) == IdsSince(already, n) + Noted(WrapI32(2 * n)) + Noted(WrapI32(2 * n + 1));
    BeginEffect(r, gx, gy, w - gx, h - gy, WrapI32(2 * n), WrapI32(2 * n + 1));
    hide PinchBegin, At, IdsSince, Noted, Replay;
  }

  lemma TruthfulOrdered(r: Receiver, pinch: PinchState, already: nat, n: nat, screen: (int, int))
    requires Truthful(r, pinch, already, n, screen)
    ensures already <= n
  {
  }

  lemma EndTruthful(r: Receiver, pinch: PinchState, already: nat, n: nat, screen: (int, int))
    requires Truthful(r, pinch, already, n, screen)
    ensures Truthful(Replay(r, PinchEnd()), Idle, already, n, screen)
  {
    EndEffect(r);
    hide PinchEnd, At, IdsSince, Replay, WrapI32;
  }

  /** The guest's relative motion is what was there at the baseline and the deltas sent since. */
  ghost predicate Tracks(r: Receiver, base: (int, int), heard: nat, sentX: seq<int>, sentY: seq<int>) {
    && heard <= |sentX| && heard <= |sentY|
    && r.relX == base.0 + Sum(sentX[heard..]) && r.relY == base.1 + Sum(sentY[heard..])
  }

  lemma TracksOn(a: Receiver, b: Receiver, base: (int, int), heard: nat, sentX: seq<int>, sentY: seq<int>, dx: int, dy: int)
    requires Tracks(a, base, heard, sentX, sentY) && b.relX == a.relX + dx && b.relY == a.relY + dy
    ensures Tracks(b, base, heard, sentX + [dx], sentY + [dy])
  {
    hide Sum;
    assert (sentX + [dx])[heard..] == sentX[heard..] + [dx] && (sentY + [dy])[heard..] == sentY[heard..] + [dy];
    SumSnoc(sentX[heard..], dx);
    SumSnoc(sentY[heard..], dy);
  }

  lemma TracksFrame(a: Receiver, b: Receiver, base: (int, int), heard: nat, sentX: seq<int>, sentY: seq<int>)
    requires Tracks(a, base, heard, sentX, sentY) && SamePlace(b, a)
    ensures Tracks(b, base, heard, sentX, sentY)
  {
  }

  /** A baseline for everything sent so far: nothing is left to account for. */
  lemma TracksFromHere(r: Receiver, sentX: seq<int>, sentY: seq<int>)
    requires |sentX| == |sentY|
    ensures Tracks(r, (r.relX, r.relY), |sentX|, sentX, sentY)
  {
    assert sentX[|sentX|..] == [] && sentY[|sentX|..] == [];
  }

  lemma NoTouch()
    ensures forall i :: 0 <= i < |TranslateLeftClickRelease()| ==>
              !ConcernsTouch(TranslateLeftClickRelease()[i]) && !MovesPointer(TranslateLeftClickRelease()[i])
  {
  }

  /** A new reader, before the first event. */
  lemma FreshInStep(none: seq<InputEvent>, pinch: PinchState, n: nat, screen: (int, int), sentX: seq<int>, sentY: seq<int>)
    requires none == [] && |sentX| == |sentY|
    ensures Truthful(Replay(FRESH, none), pinch, n, n, screen)
    ensures Tracks(Replay(FRESH, none), (0, 0), |sentX|, sentX, sentY)
    ensures EncodeAll(none) == []
  {
    NothingReplayed(FRESH, none);
    TracksFromHere(FRESH, sentX, sentY);
    hide Replay, EncodeAll, WrapI32;
  }

  lemma NothingReplayed(r: Receiver, events: seq<InputEvent>)
    requires events == []
    ensures Replay(r, events) == r && EncodeAll(events) == []
  {
    hide Apply, ToBytes;
  }

  class InputManager {
    const metrics: DisplayMetrics
    const grab: InputGrabState
    const multiTouch: MultiTouchState
    var connected: bool
    /** The bytes the socket has taken since it was connected. */
    var delivered: seq<byte>
    /** The events handed to `Inject` since it was, and whether the socket took every one of them. */
    ghost var emitted: seq<InputEvent>
    ghost var lossless: bool
    /** How many pinches were begun, and the guest's size at the last event of a pinch. */
    ghost var pinches: nat
    ghost var screen: (int, int)
    /** The guest's relative motion when the grab last lost its baseline, or when the socket was connected since. */
    ghost var base: (int, int)
    /** At the last connection: the pinches begun before it, whether one was active, and the grabbed motions sent before it. */
    ghost var already: nat
    ghost var midPinch: bool
    ghost var heard: nat

    /** What a reader since the connection makes of the events emitted. */
    ghost function Seen(): Receiver
      reads this
    {
      Replay(FRESH, emitted)
    }

    ghost predicate Valid()
      reads this, grab, multiTouch
    {
      && grab.Valid()
      && (lossless ==> delivered == EncodeAll(emitted))
      && Truthful(Replay(FRESH, emitted), multiTouch.pinch, already, pinches, screen)
      && (multiTouch.pinch == Active && pinches == already ==> midPinch)
      && |grab.sentX| == |grab.sentY|
      && Tracks(Replay(FRESH, emitted), base, heard, grab.sentX, grab.sentY)
      && multiTouch.nextTrackingId == WrapI32(2 * pinches)
      && multiTouch.slot0Active == multiTouch.slot1Active == (multiTouch.pinch == Active)
    }

    constructor (metrics: DisplayMetrics)
      ensures Valid() && this.metrics == metrics && fresh(grab) && fresh(multiTouch)
      ensures !connected && emitted == [] && pinches == already == 0 && lossless
    {
      hide Truthful, Replay, EncodeAll, Tracks, InputGrabState.Valid;
      ghost var none: seq<InputEvent> := [];
      FreshInStep(none, Idle, 0, (0, 0), [], []);
      this.metrics := metrics;
      grab := new InputGrabState();
      multiTouch := new MultiTouchState();
      connected, delivered := false, [];
      emitted, lossless, pinches, screen, base := none, true, 0, (0, 0), (0, 0);
      already, midPinch, heard := 0, false, 0;
    }

    /** A new connection starts a new stream with a new reader: what was sent before is not part of it. */
    method Connect() returns (r: Outcome)
      requires Valid()
      modifies `connected, `delivered, `emitted, `lossless, `base, `already, `midPinch, `heard
      ensures Valid()
      ensures r.Success? ==> connected && lossless && delivered == [] && emitted == []
      ensures r.Success? ==> already == pinches && (midPinch <==> multiTouch.pinch == Active) && heard == |grab.sentX|
      ensures r.Failure? ==>
        && r.error == SocketConnect && connected == old(connected) && lossless == old(lossless)
        && delivered == old(delivered) && emitted == old(emitted) && already == old(already) && midPinch == old(midPinch)
    {
      hide Truthful, Tracks, Replay, EncodeAll, WrapI32, InputGrabState.Valid;
      if * {
        return Failure(SocketConnect);
      }
      ghost var none: seq<InputEvent> := [];
      FreshInStep(none, multiTouch.pinch, pinches, screen, grab.sentX, grab.sentY);
      connected, delivered := true, [];
      emitted, lossless, base := none, true, (0, 0);
      already, midPinch, heard := pinches, multiTouch.pinch == Active, |grab.sentX|;
      r := Success(());
    }

    method Serialize(events: seq<InputEvent>) returns (buf: seq<byte>)
      ensures buf == EncodeAll(events)
    {
      buf := [];
      var i := 0;
      while i < |events|
        invariant 0 <= i <= |events| && buf == EncodeAll(events[..i])
      {
        assert events[..i + 1] == events[..i] + [events[i]];
        EncodeJoin(events[..i], [events[i]]);
        assert EncodeAll([events[i]]) == ToBytes(events[i]) + [];
        buf := buf + ToBytes(events[i]);
        i := i + 1;
      }
      assert events[..i] == events;
    }

    /** A failed write may have taken any part of the batch. Without a socket the batch is dropped, and that is no error. */
    method Inject(events: seq<InputEvent>) returns (r: Outcome)
      requires lossless ==> delivered == EncodeAll(emitted)
      modifies `delivered, `emitted, `lossless
      ensures lossless ==> delivered == EncodeAll(emitted)
      ensures emitted == old(emitted) + events
      ensures lossless ==> old(lossless)
      ensures old(lossless) && connected && r.Success? ==> lossless
      ensures r.Failure? ==> r.error == SocketWrite && connected
      ensures connected && r.Success? ==> delivered == old(delivered) + EncodeAll(events)
      ensures !connected ==> r.Success? && delivered == old(delivered)
      ensures r.Failure? ==> old(delivered) <= delivered < old(delivered) + EncodeAll(events)
    {
      if !connected {
        emitted := emitted + events;
        lossless := lossless && events == [];
        assert events == [] ==> emitted == old(emitted);
        return Success(());
      }
      var buf := Serialize(events);
      EncodeJoin(emitted, events);
      emitted := emitted + events;
      hide EncodeAll;
      var taken: nat := *;
      if 0 <= taken < |buf| {
        delivered := delivered + buf[..taken];
        lossless := false;
        return Failure(SocketWrite);
      }
      delivered := delivered + buf;
      r := Success(());
    }

    /** A batch that neither concerns the touch slots nor moves the pointer. */
    method InjectPlain(events: seq<InputEvent>) returns (r: Outcome)
      requires Valid() && forall i :: 0 <= i < |events| ==> !ConcernsTouch(events[i]) && !MovesPointer(events[i])
      modifies `delivered, `emitted, `lossless
      ensures Valid() && emitted == old(emitted) + events
      ensures lossless ==> old(lossless)
      ensures old(lossless) && connected && r.Success? ==> lossless
      ensures r.Failure? ==> r.error == SocketWrite && connected
    {
      hide Truthful, Tracks, Replay, EncodeAll, WrapI32, InputGrabState.Valid;
      ReplayJoin(FRESH, emitted, events);
      OtherEvents(Replay(FRESH, emitted), events);
      NoMotion(Replay(FRESH, emitted), events);
      TruthfulFrame(Replay(FRESH, emitted), Replay(FRESH, emitted + events), multiTouch.pinch, already, pinches, screen);
      TracksFrame(Replay(FRESH, emitted), Replay(FRESH, emitted + events), base, heard, grab.sentX, grab.sentY);
      r := Inject(events);
    }

    method HandleKey(keycode: u16, pressed: bool) returns (r: Outcome)
      requires Valid()
      modifies `delivered, `emitted, `lossless
      ensures Valid() && emitted == old(emitted) + TranslateKey(keycode, pressed)
      ensures old(lossless) && connected && r.Success? ==> lossless
    {
      hide Valid;
      r := InjectPlain(TranslateKey(keycode, pressed));
    }

    method HandleScroll(dx: real, dy: real) returns (r: Outcome)
      requires Valid()
      modifies `delivered, `emitted, `lossless
      ensures Valid() && emitted == old(emitted) + WheelEvents(REL_WHEEL, dy) + WheelEvents(REL_HWHEEL, dx)
      ensures old(lossless) && connected && r.Success? ==> lossless
    {
      hide Valid;
      var events := TranslateScroll(dx, dy);
      Assoc(emitted, WheelEvents(REL_WHEEL, dy), WheelEvents(REL_HWHEEL, dx));
      if events == [] {
        assert emitted + events == emitted;
        return Success(());
      }
      r := InjectPlain(events);
    }

    /** Free motion is absolute, grabbed motion relative, and an active pinch takes precedence over both. */
    method HandleMotion(x: real, y: real) returns (r: Outcome)
      requires Valid() && (multiTouch.pinch == Active || grab.mode == Free ==> OnScreen(metrics))
      modifies `delivered, `emitted, `lossless, `screen, grab
      ensures Valid()
      ensures r == Failure(MetricsPoisoned) ==> emitted == old(emitted)
      ensures r != Failure(MetricsPoisoned) ==>
                (if old(multiTouch.pinch) == Active then
                   && emitted == old(emitted) + TranslatePinchMove(x, y, metrics)
                   && screen == (metrics.guestWidth, metrics.guestHeight)
                 else if old(grab.mode) == Grabbed then
                   && grab.path == old(grab.path) + [(x, y)]
                   && emitted == old(emitted) + TranslateRelativeMotion(grab.sentX[|grab.sentX| - 1], grab.sentY[|grab.sentY| - 1])
                 else
                   emitted == old(emitted) + MotionAt(x, y))
      // What the guest then sees: the pinch's contacts, the relative motion, or the pointer where the position is mapped to.
      ensures r != Failure(MetricsPoisoned) ==>
                var was := old(Seen());
                if old(multiTouch.pinch) == Active then
                  ContactsAt(Seen(), metrics, x, y, At(was, 0).id, At(was, 1).id)
                else if old(grab.mode) == Grabbed then
                  Seen() == was.(relX := was.relX + LastSent(grab.sentX), relY := was.relY + LastSent(grab.sentY))
                else
                  var (gx, gy) := metrics.MapHostToGuest(x, y);
                  Seen() == was.(absX := gx, absY := gy)
      ensures old(lossless) && connected && r.Success? ==> lossless
    {
      hide Valid, Replay, At, ContactsAt, MapAxis, TranslateMotion, TranslateRelativeMotion, TranslatePinchMove;
      if * {
        return Failure(MetricsPoisoned);
      }
      ghost var before := emitted;
      if multiTouch.pinch == Active {
        MoveShown(before, metrics, x, y);
        r := MovePinch(x, y);
      } else if grab.mode == Grabbed {
        r := MoveGrabbed(x, y);
        MotionShown(before, grab.sentX[|grab.sentX| - 1], grab.sentY[|grab.sentY| - 1]);
      } else {
        ghost var (gx, gy) := metrics.MapHostToGuest(x, y);
        MotionShown(before, gx, gy);
        r := InjectPlain(MotionAt(x, y));
      }
    }

    function MotionAt(x: real, y: real): (events: seq<InputEvent>)
      requires OnScreen(metrics)
      reads metrics
      ensures forall i :: 0 <= i < |events| ==> !ConcernsTouch(events[i]) && !MovesPointer(events[i])
    {
      var (gx, gy) := metrics.MapHostToGuest(x, y);
      TranslateMotion(gx, gy)
    }

    method MovePinch(x: real, y: real) returns (r: Outcome)
      requires Valid() && OnScreen(metrics) && multiTouch.pinch == Active
      modifies `delivered, `emitted, `lossless, `screen
      ensures Valid() && emitted == old(emitted) + TranslatePinchMove(x, y, metrics)
      ensures screen == (metrics.guestWidth, metrics.guestHeight)
      ensures old(lossless) && connected && r.Success? ==> lossless
      ensures r.Failure? ==> r.error == SocketWrite
    {
      hide Replay, EncodeAll, MapAxis, IdsSince, WrapI32, Tracks, InputGrabState.Valid;
      var (gx, gy) := metrics.MapHostToGuest(x, y);
      var events := TranslatePinchMove(x, y, metrics);
      ReplayJoin(FRESH, emitted, events);
      MoveEffect(Replay(FRESH, emitted), gx, gy, metrics.guestWidth - gx, metrics.guestHeight - gy);
      MoveMovesNothing(Replay(FRESH, emitted), gx, gy, metrics.guestWidth - gx, metrics.guestHeight - gy);
      TracksFrame(Replay(FRESH, emitted), Replay(FRESH, emitted + events), base, heard, grab.sentX, grab.sentY);
      screen := (metrics.guestWidth, metrics.guestHeight);
      hide PinchMove, At;
      r := Inject(events);
    }

    method MoveGrabbed(x: real, y: real) returns (r: Outcome)
      requires Valid()
      modifies `delivered, `emitted, `lossless, grab
      ensures Valid() && grab.mode == old(grab.mode) && grab.path == old(grab.path) + [(x, y)]
      ensures grab.sentX != [] && grab.sentY != []
      ensures I32_MIN <= grab.sentX[|grab.sentX| - 1] <= I32_MAX && I32_MIN <= grab.sentY[|grab.sentY| - 1] <= I32_MAX
      ensures emitted == old(emitted) + TranslateRelativeMotion(grab.sentX[|grab.sentX| - 1], grab.sentY[|grab.sentY| - 1])
      ensures old(lossless) && connected && r.Success? ==> lossless
      ensures r.Failure? ==> r.error == SocketWrite
    {
      hide Truthful, Tracks, Replay, EncodeAll, InputGrabState.Valid;
      ghost var sentX, sentY := grab.sentX, grab.sentY;
      var dx, dy := grab.ComputeDelta(x, y);
      var events := TranslateRelativeMotion(dx, dy);
      ReplayJoin(FRESH, emitted, events);
      MotionEffect(Replay(FRESH, emitted), dx, dy);
      TracksOn(Replay(FRESH, emitted), Replay(FRESH, emitted + events), base, heard, sentX, sentY, dx, dy);
      TruthfulFrame(Replay(FRESH, emitted), Replay(FRESH, emitted + events), multiTouch.pinch, already, pinches, screen);
      r := Inject(events);
    }

    method EndPinch() returns (r: Outcome)
      requires Valid() && multiTouch.pinch == Active
      modifies `delivered, `emitted, `lossless, multiTouch
      ensures Valid() && multiTouch.pinch == Idle && emitted == old(emitted) + PinchEnd()
      ensures old(lossless) && connected && r.Success? ==> lossless
      ensures r.Failure? ==> r.error == SocketWrite
    {
      hide Truthful, Tracks, Replay, EncodeAll, PinchEnd, WrapI32, InputGrabState.Valid;
      ReplayJoin(FRESH, emitted, PinchEnd());
      EndMovesNothing(Replay(FRESH, emitted));
      EndTruthful(Replay(FRESH, emitted), multiTouch.pinch, already, pinches, screen);
      TracksFrame(Replay(FRESH, emitted), Replay(FRESH, emitted + PinchEnd()), base, heard, grab.sentX, grab.sentY);
      var events := TranslatePinchEnd(multiTouch);
      r := Inject(events);
    }

    method EndPinchIfActive() returns (r: Outcome)
      requires Valid()
      modifies `delivered, `emitted, `lossless, multiTouch
      ensures Valid() && multiTouch.pinch == Idle
      ensures emitted == old(emitted) + if old(multiTouch.pinch) == Active then PinchEnd() else []
      ensures old(lossless) && connected && r.Success? ==> lossless
    {
      r := Success(());
      if multiTouch.pinch == Active {
        r := EndPinch();
      }
    }

    method BeginPinch(x: real, y: real) returns (r: Outcome)
      requires Valid() && OnScreen(metrics)
      modifies `delivered, `emitted, `lossless, `pinches, `screen, multiTouch
      ensures Valid() && multiTouch.pinch == Active && pinches == old(pinches) + 1
      ensures screen == (metrics.guestWidth, metrics.guestHeight)
      ensures emitted == old(emitted) + PinchBeginAt(x, y, metrics, old(multiTouch.nextTrackingId))
      ensures old(lossless) && connected && r.Success? ==> lossless
      ensures r.Failure? ==> r.error == SocketWrite
    {
      hide Truthful, Tracks, Replay, EncodeAll, WrapI32, PinchBeginAt, InputGrabState.Valid;
      ghost var before := multiTouch.pinch;
      WrapStep(2 * pinches);
      WrapStep(2 * pinches + 1);
      var events := TranslatePinchBegin(x, y, metrics, multiTouch);
      r := InjectPinch(events, x, y, before);
    }

    /** The batch of a pinch that the touch state already counts as begun. */
    method InjectPinch(events: seq<InputEvent>, ghost x: real, ghost y: real, ghost before: PinchState) returns (r: Outcome)
      requires OnScreen(metrics) && grab.Valid() && (lossless ==> delivered == EncodeAll(emitted))
      requires Truthful(Replay(FRESH, emitted), before, already, pinches, screen)
      requires |grab.sentX| == |grab.sentY| && Tracks(Replay(FRESH, emitted), base, heard, grab.sentX, grab.sentY)
      requires events == PinchBeginAt(x, y, metrics, WrapI32(2 * pinches))
      requires multiTouch.pinch == Active && multiTouch.slot0Active && multiTouch.slot1Active
      requires multiTouch.nextTrackingId == WrapI32(2 * pinches + 2)
      modifies `delivered, `emitted, `lossless, `pinches, `screen
      ensures Valid() && pinches == old(pinches) + 1 && emitted == old(emitted) + events
      ensures screen == (metrics.guestWidth, metrics.guestHeight)
      ensures old(lossless) && connected && r.Success? ==> lossless
      ensures r.Failure? ==> r.error == SocketWrite
    {
      hide Truthful, Tracks, Replay, EncodeAll, PinchBegin, WrapI32, MapAxis, InputGrabState.Valid;
      ghost var (gx, gy) := metrics.MapHostToGuest(x, y);
      WrapStep(2 * pinches);
      ReplayJoin(FRESH, emitted, events);
      BeginTruthful(Replay(FRESH, emitted), before, already, pinches, screen, gx, gy, metrics.guestWidth, metrics.guestHeight);
      BeginMovesNothing(Replay(FRESH, emitted), gx, gy, metrics.guestWidth - gx, metrics.guestHeight - gy,
                        WrapI32(2 * pinches), WrapI32(2 * pinches + 1));
      TracksFrame(Replay(FRESH, emitted), Replay(FRESH, emitted + events), base, heard, grab.sentX, grab.sentY);
      TruthfulOrdered(Replay(FRESH, emitted), before, already, pinches, screen);
      pinches := pinches + 1;
      screen := (metrics.guestWidth, metrics.guestHeight);
      r := Inject(events);
    }

    method HandleClick(button: MouseButton, pressed: bool, x: real, y: real, ctrlHeld: bool) returns (r: Outcome)
      requires Valid() && (button == Left && pressed ==> OnScreen(metrics))
      modifies this, multiTouch
      ensures Valid() && connected == old(connected)
      ensures r == Failure(MetricsPoisoned) ==> emitted == old(emitted)
      ensures r != Failure(MetricsPoisoned) ==>
                (if button == Left && pressed && ctrlHeld then
                   && multiTouch.pinch == Active && pinches == old(pinches) + 1
                   && emitted == old(emitted) + PinchBeginAt(x, y, metrics, old(multiTouch.nextTrackingId))
                 else
                   && pinches == old(pinches)
                   && multiTouch.pinch == (if button == Left && !pressed then Idle else old(multiTouch.pinch))
                   && emitted == old(emitted) + (if button == Left && pressed then PressAt(x, y)
                                                 else if button == Left then
                                                   if old(multiTouch.pinch) == Active then PinchEnd() else TranslateLeftClickRelease()
                                                 else if pressed then TranslateRightClick()
                                                 else []))
      // What the guest then sees of the left button: the contacts of a pinch, or a touch where the position is mapped to, or its end.
      ensures r != Failure(MetricsPoisoned) && button == Left ==>
                var was := old(Seen());
                if pressed && ctrlHeld then
                  var id := old(multiTouch.nextTrackingId);
                  ContactsAt(Seen(), metrics, x, y, id, WrapI32(id + 1)) && Seen().held == was.held + {BTN_TOUCH}
                else if pressed then
                  var (gx, gy) := metrics.MapHostToGuest(x, y);
                  Seen() == was.(held := was.held + {BTN_TOUCH}, absX := gx, absY := gy)
                else
                  && Seen().held == was.held - {BTN_TOUCH}
                  && (if old(multiTouch.pinch) == Active then At(Seen(), 0).id == -1 && At(Seen(), 1).id == -1
                      else Seen() == was.(held := was.held - {BTN_TOUCH}))
      ensures old(lossless) && connected && r.Success? ==> lossless
    {
      hide Valid, Replay, At, ContactsAt, MapAxis, PinchBeginAt, PinchEnd, TranslateLeftClickPress, TranslateLeftClickRelease, WrapI32;
      r := Success(());
      ghost var before := emitted;
      if button == Left && pressed {
        if * {
          return Failure(MetricsPoisoned);
        }
        if ctrlHeld {
          BeginShown(before, metrics, x, y, multiTouch.nextTrackingId);
          r := BeginPinch(x, y);
        } else {
          ghost var (gx, gy) := metrics.MapHostToGuest(x, y);
          ClickShown(before, gx, gy);
          r := Press(x, y);
        }
      } else if button == Left {
        if multiTouch.pinch == Active {
          EndShown(before);
          r := EndPinch();
        } else {
          ClickShown(before, 0, 0);
          NoTouch();
          r := InjectPlain(TranslateLeftClickRelease());
        }
      } else if pressed {
        r := InjectPlain(TranslateRightClick());
      }
    }

    method Press(x: real, y: real) returns (r: Outcome)
      requires Valid() && OnScreen(metrics)
      modifies `delivered, `emitted, `lossless
      ensures Valid()
      ensures emitted == old(emitted) + PressAt(x, y)
      ensures old(lossless) && connected && r.Success? ==> lossless
      ensures r.Failure? ==> r.error == SocketWrite
    {
      hide Valid;
      r := InjectPlain(PressAt(x, y));
    }

    function PressAt(x: real, y: real): (events: seq<InputEvent>)
      requires OnScreen(metrics)
      reads metrics
      ensures forall i :: 0 <= i < |events| ==> !ConcernsTouch(events[i]) && !MovesPointer(events[i])
    {
      var (gx, gy) := metrics.MapHostToGuest(x, y);
      TranslateLeftClickPress(gx, gy)
    }

    method ToggleGrab() returns (now: GrabMode)
      requires Valid()
      modifies `base, `heard, grab
      ensures Valid() && now == grab.mode && now != old(grab.mode) && grab.path == []
    {
      hide Truthful, Tracks, Replay, EncodeAll, InputGrabState.Valid;
      now := grab.Toggle();
      TracksFromHere(Replay(FRESH, emitted), grab.sentX, grab.sentY);
      base, heard := (Replay(FRESH, emitted).relX, Replay(FRESH, emitted).relY), 0;
    }

    method ResetGrabPosition()
      requires Valid()
      modifies `base, `heard, grab
      ensures Valid() && grab.mode == old(grab.mode) && grab.path == []
    {
      hide Truthful, Tracks, Replay, EncodeAll, InputGrabState.Valid;
      grab.ResetPosition();
      TracksFromHere(Replay(FRESH, emitted), grab.sentX, grab.sentY);
      base, heard := (Replay(FRESH, emitted).relX, Replay(FRESH, emitted).relY), 0;
    }
  }

  // ----- what the guest sees -----

  /** With everything delivered since the connection, the guest has replayed exactly the events emitted since. */
  lemma GuestSeesEmitted(m: InputManager)
    requires m.Valid() && m.lossless
    ensures DecodeAll(m.delivered) == m.emitted
  {
    ReaderSeesAll(m.emitted);
  }

  /**
   Without a pinch no slot is live. A pinch in progress is two distinct live contacts exactly if it was begun
   on this connection, as it must have been unless the connection was made in the middle of a pinch, and its
   wrapped ids are not negative; otherwise it is not two live contacts.
   */
  lemma LiveIffActive(m: InputManager)
    requires m.Valid() && m.lossless
    ensures var r := Replay(FRESH, DecodeAll(m.delivered));
            && (m.multiTouch.pinch == Idle ==> !At(r, 0).Live() && !At(r, 1).Live())
            && (m.multiTouch.pinch == Active && !m.midPinch ==> m.pinches > m.already)
            && (m.multiTouch.pinch == Active ==>
                  && (At(r, 0).Live() && At(r, 1).Live() <==> m.pinches > m.already && (m.pinches - 1) % 0x8000_0000 < 0x4000_0000)
                  && (m.pinches > m.already ==> At(r, 0).id != At(r, 1).id)
                  && (m.pinches == m.already ==> !At(r, 0).Live() && !At(r, 1).Live()))
  {
    GuestSeesEmitted(m);
    hide Replay, DecodeAll, WrapI32, InputGrabState.Valid, Tracks, IdsSince;
    if m.multiTouch.pinch == Active && m.pinches > m.already {
      IdsLiveIff(m.pinches);
    }
  }

  /** Up to 2^30 pinches no id is ever given twice. */
  lemma IdsNeverReused(m: InputManager, i: nat, j: nat)
    requires m.Valid() && m.lossless && m.pinches <= 0x4000_0000
    ensures var ids := Replay(FRESH, DecodeAll(m.delivered)).ids;
            i < j < |ids| ==> ids[i] != ids[j] && ids[i] >= 0
  {
    GuestSeesEmitted(m);
    hide Replay, DecodeAll, InputGrabState.Valid, Tracks;
    IdsAreFresh(m.already, m.pinches);
  }

  /** The two contacts of a pinch begun on this connection always mirror each other across the screen. */
  lemma ContactsMirrored(m: InputManager)
    requires m.Valid() && m.lossless && m.multiTouch.pinch == Active && m.pinches > m.already
    ensures var r := Replay(FRESH, DecodeAll(m.delivered));
            && At(r, 0).x + At(r, 1).x == m.screen.0 && At(r, 0).y + At(r, 1).y == m.screen.1
            && 0 <= At(r, 0).x < m.screen.0 && 0 < At(r, 1).x <= m.screen.0
            && 0 <= At(r, 0).y < m.screen.1 && 0 < At(r, 1).y <= m.screen.1
  {
    GuestSeesEmitted(m);
    hide Replay, DecodeAll, InputGrabState.Valid, Tracks, IdsSince;
  }

  /**
   While grabbed, the guest's pointer has moved since the baseline, or since the last position before the
   connection, by the true displacement, to within half a pixel per motion.
   */
  lemma GuestPointerDrift(m: InputManager)
    requires m.Valid() && m.lossless && m.grab.path != []
    requires StepsFit(Xs(m.grab.path)) && StepsFit(Ys(m.grab.path))
    ensures var r, start := Replay(FRESH, DecodeAll(m.delivered)), if m.heard == 0 then 1 else m.heard;
            && start <= |m.grab.path|
            && var n := (|m.grab.path| - start) as real;
            var (x0, y0) := m.grab.path[start - 1];
            && -n / 2.0 <= (r.relX - m.base.0) as real - (m.grab.lastX - x0) <= n / 2.0
            && -n / 2.0 <= (r.relY - m.base.1) as real - (m.grab.lastY - y0) <= n / 2.0
  {
    GuestSeesEmitted(m);
    hide Replay, DecodeAll, Tracks, StepsFit, Truthful, EncodeAll, WrapI32, IdsSince, At, InputGrabState.Valid;
    TrackedDrift(m.grab, Replay(FRESH, m.emitted), m.base, m.heard);
  }

  lemma TrackedDrift(g: InputGrabState, r: Receiver, base: (int, int), heard: nat)
    requires g.Valid() && Tracks(r, base, heard, g.sentX, g.sentY) && g.path != []
    requires StepsFit(Xs(g.path)) && StepsFit(Ys(g.path))
    ensures var start := if heard == 0 then 1 else heard;
            && start <= |g.path|
            && var n := (|g.path| - start) as real;
            var (x0, y0) := g.path[start - 1];
            && -n / 2.0 <= (r.relX - base.0) as real - (g.lastX - x0) <= n / 2.0
            && -n / 2.0 <= (r.relY - base.1) as real - (g.lastY - y0) <= n / 2.0
  {
    hide Sum, Deltas, StepsFit;
    if heard == 0 {
      GrabDrift(g);
      assert g.sentX[0..] == g.sentX && g.sentY[0..] == g.sentY;
    } else {
      GrabDriftSince(g, heard);
    }
  }

  // ----- where the guest is touched -----

  /**
   Moving to, pressing or beginning a pinch where a guest pixel is drawn on the host puts the guest's pointer, its touch,
   or its first contact on that pixel.
   */
  lemma HitsWhatIsDrawn(m: InputManager, before: seq<InputEvent>, gx: int, gy: int, id: i32)
    requires m.metrics.Current() && m.metrics.hostWidth > 0.0 && m.metrics.hostHeight > 0.0
    requires 0 <= gx < m.metrics.guestWidth <= I32_MAX && 0 <= gy < m.metrics.guestHeight <= I32_MAX
    ensures var d := m.metrics;
            var x, y := DrawnAt(gx, d.letterboxX, d.scale), DrawnAt(gy, d.letterboxY, d.scale);
            var moved, pressed := Replay(FRESH, before + m.MotionAt(x, y)), Replay(FRESH, before + m.PressAt(x, y));
            var pinched := Replay(FRESH, before + PinchBeginAt(x, y, d, id));
            && (moved.absX, moved.absY) == (gx, gy)
            && (pressed.absX, pressed.absY) == (gx, gy) && BTN_TOUCH in pressed.held
            && At(pinched, 0) == Contact(id, gx, gy) && BTN_TOUCH in pinched.held
            && At(pinched, 1) == Contact(WrapI32(id + 1), d.guestWidth - gx, d.guestHeight - gy)
  {
    var d := m.metrics;
    ClicksHitWhatIsDrawn(d, gx, gy);
    hide Replay, At, MapAxis, PinchBeginAt, TranslateMotion, TranslateLeftClickPress, WrapI32, Fit, DrawnAt;
    MotionShown(before, gx, gy);
    ClickShown(before, gx, gy);
    BeginShown(before, d, DrawnAt(gx, d.letterboxX, d.scale), DrawnAt(gy, d.letterboxY, d.scale), id);
  }
}
