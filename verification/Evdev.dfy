/** Linux input events, their 16-byte form, and what a reader makes of a stream of them. */
module Evdev {
  import opened Bytes

  const EV_SYN: u16 := 0x00
  const EV_KEY: u16 := 0x01
  const EV_REL: u16 := 0x02
  const EV_ABS: u16 := 0x03
  const SYN_REPORT: u16 := 0x00
  const BTN_TOUCH: u16 := 0x14a
  const KEY_BACK: u16 := 158
  const ABS_X: u16 := 0x00
  const ABS_Y: u16 := 0x01
  const ABS_MT_SLOT: u16 := 0x2f
  const ABS_MT_POSITION_X: u16 := 0x35
  const ABS_MT_POSITION_Y: u16 := 0x36
  const ABS_MT_TRACKING_ID: u16 := 0x39
  const REL_X: u16 := 0x00
  const REL_Y: u16 := 0x01
  const REL_HWHEEL: u16 := 0x06
  const REL_WHEEL: u16 := 0x08

  type u16 = n: int | 0 <= n < 0x1_0000

  type i32 = n: int | -0x8000_0000 <= n < 0x8000_0000

  /** The timestamp of an injected event is always zero. */
  datatype InputEvent = InputEvent(eventType: u16, code: u16, value: i32)

  const SYN := InputEvent(EV_SYN, SYN_REPORT, 0)

  const EVENT_SIZE: nat := 16

  /** Two's complement. */
  function Unsigned(v: i32): u32 {
    if v < 0 then v + TWO_32 else v
  }

  function Signed(n: u32): (v: i32)
    ensures Unsigned(v) == n
  {
    if n < 0x8000_0000 then n else n - TWO_32
  }

  function ToBytes(e: InputEvent): (b: seq<byte>)
    ensures |b| == EVENT_SIZE
  {
    Words([0, 0, e.eventType + 0x1_0000 * e.code, Unsigned(e.value)])
  }

  function FromBytes(b: seq<byte>): InputEvent
    requires |b| >= EVENT_SIZE
  {
    InputEvent(Word(b, 2) % 0x1_0000, Word(b, 2) / 0x1_0000, Signed(Word(b, 3)))
  }

  lemma EventRoundTrip(e: InputEvent, rest: seq<byte>)
    ensures FromBytes(ToBytes(e) + rest) == e
  {
    hide Words, Word;
    var ws: seq<u32> := [0, 0, e.eventType + 0x1_0000 * e.code, Unsigned(e.value)];
    WordPlaced(ws, rest, 2);
    WordPlaced(ws, rest, 3);
  }

  function EncodeAll(events: seq<InputEvent>): (b: seq<byte>)
    ensures |b| == EVENT_SIZE * |events|
  {
    if events == [] then [] else ToBytes(events[0]) + EncodeAll(events[1..])
  }

  /** The events a reader has seen in full. */
  function DecodeAll(b: seq<byte>): seq<InputEvent> {
    if |b| < EVENT_SIZE then [] else [FromBytes(b)] + DecodeAll(b[EVENT_SIZE..])
  }

  lemma {:induction false} EncodeJoin(a: seq<InputEvent>, b: seq<InputEvent>)
    ensures EncodeAll(a + b) == EncodeAll(a) + EncodeAll(b)
  {
    hide ToBytes;
    if a == [] {
      assert a + b == b;
    } else {
      assert (a + b)[0] == a[0] && (a + b)[1..] == a[1..] + b;
      EncodeJoin(a[1..], b);
      Assoc(ToBytes(a[0]), EncodeAll(a[1..]), EncodeAll(b));
    }
  }

  /** However much of the stream has arrived, the reader has exactly the events that are complete. */
  lemma {:induction false} ReaderSeesPrefix(events: seq<InputEvent>, n: nat)
    requires n <= EVENT_SIZE * |events|
    ensures DecodeAll(EncodeAll(events)[..n]) == events[..n / EVENT_SIZE]
  {
    hide ToBytes, FromBytes;
    var b := EncodeAll(events)[..n];
    if n >= EVENT_SIZE {
      var first, tail := ToBytes(events[0]), EncodeAll(events[1..]);
      assert b == first + tail[..n - EVENT_SIZE];
      EventRoundTrip(events[0], tail[..n - EVENT_SIZE]);
      assert b[EVENT_SIZE..] == tail[..n - EVENT_SIZE];
      ReaderSeesPrefix(events[1..], n - EVENT_SIZE);
      assert events[..n / EVENT_SIZE] == [events[0]] + events[1..][..n / EVENT_SIZE - 1];
    }
  }

  lemma ReaderSeesAll(events: seq<InputEvent>)
    ensures DecodeAll(EncodeAll(events)) == events
  {
    hide DecodeAll, EncodeAll;
    var n := EVENT_SIZE * |events|;
    assert EncodeAll(events)[..n] == EncodeAll(events) && events[..n / EVENT_SIZE] == events;
    ReaderSeesPrefix(events, n);
  }
}
