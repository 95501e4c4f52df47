/** The connection to the guest as a byte stream each way, read one frame at a time. */
module AdbTransport {
  import opened Wrappers
  import opened Bytes
  import opened AdbProtocol
  import opened AdbSyncGuest

  /** What becomes of one write when the guest follows a script: its answer, or an I/O error. */
  datatype Reaction = Answer(bytes: seq<byte>) | WriteFails

  /** The far end: any byte-for-byte behaviour at all, or the sync guest. */
  datatype Guest = Scripted(script: seq<Reaction>) | Honest(g: SyncGuest)

  function React(guest: Guest, bytes: seq<byte>): (Guest, Option<seq<byte>>) {
    match guest
    case Scripted(script) =>
      if script == [] then (guest, Some([]))
      else (Scripted(script[1..]), if script[0].Answer? then Some(script[0].bytes) else None)
    case Honest(g) =>
      match FromBytes(bytes)
      case Success(m) => var (g', replies) := Step(g, m); (Honest(g'), Some(EncodeAll(replies)))
      case Failure(_) => (guest, Some([]))
  }

  /** How much the guest still has to say without being told anything but OKAY. */
  function Fuel(guest: Guest): (n: nat) {
    match guest
    case Scripted(script) => |script|
    case Honest(g) => if g.phase.Sending? then |g.phase.queue| else 0
  }

  /** An acknowledgement makes the guest speak only at the cost of fuel: what makes the loops below terminate here. */
  lemma AcknowledgementProgress(guest: Guest, local: u32, remote: u32)
    ensures var (g', reply) := React(guest, Encode(Okay(local, remote)));
            Fuel(g') < Fuel(guest) || (Fuel(g') == Fuel(guest) && (reply.Some? ==> reply.value == []))
  {
    if guest.Honest? {
      RoundTripIff(Okay(local, remote));
    }
  }

  /** The outcome of reading one frame from the front of a stream. */
  datatype Frame = Starved | Frame(message: Result<Message, AdbError>, rest: seq<byte>)

  function ReadFrame(stream: seq<byte>): (f: Frame) {
    if |stream| < HEADER_SIZE then Starved
    else
      var dataLen := Word(stream, 3);
      if |stream| < HEADER_SIZE + dataLen then Starved
      else Frame(FromBytes(stream[..HEADER_SIZE + dataLen]), stream[HEADER_SIZE + dataLen..])
  }

  /** A frame reads as `m` exactly when the stream starts with m's encoding, and the read stops right after it. */
  lemma ReadsExactly(stream: seq<byte>, m: Message, rest: seq<byte>)
    ensures ReadFrame(stream) == Frame(Success(m), rest) <==> |m.data| < TWO_32 && stream == Encode(m) + rest
  {
    hide Words, Word, Checksum;
    if |m.data| < TWO_32 && stream == Encode(m) + rest {
      assert stream == Words(HeaderWords(m)) + (m.data + rest);
      HeaderFields(m, m.data + rest);
      assert stream[..HEADER_SIZE + |m.data|] == Encode(m);
      DecodesExactly(Encode(m), m);
      assert stream[HEADER_SIZE + |m.data|..] == rest;
    }
    if ReadFrame(stream) == Frame(Success(m), rest) {
      var n := HEADER_SIZE + Word(stream, 3);
      DecodesExactly(stream[..n], m);
      WordOfPrefix(stream, n, 3);
      assert |Encode(m)| == n;
      assert stream[..n] == Encode(m);
      assert stream == stream[..n] + stream[n..];
    }
  }

  /** Frame after frame until the stream starves or a frame is bad. */
  function ReadAll(stream: seq<byte>): (seq<Message>, seq<byte>)
    decreases |stream|
  {
    match ReadFrame(stream)
    case Frame(Success(m), rest) =>
      var (ms, left) := ReadAll(rest);
      ([m] + ms, left)
    case _ => ([], stream)
  }

  /** Concatenated encodings read back as the sequence that was written; what follows is untouched. */
  lemma {:induction false} ReadAllOfEncodeAll(ms: seq<Message>, tail: seq<byte>)
    requires Framable(ms) && ReadFrame(tail).Starved?
    ensures ReadAll(EncodeAll(ms) + tail) == (ms, tail)
  {
    hide Encode, ReadFrame;
    if ms == [] {
      assert EncodeAll(ms) + tail == tail;
    } else {
      var rest := EncodeAll(ms[1..]) + tail;
      var stream := EncodeAll(ms) + tail;
      Assoc(Encode(ms[0]), EncodeAll(ms[1..]), tail);
      ReadsExactly(stream, ms[0], rest);
      ReadAllOfEncodeAll(ms[1..], tail);
      assert ReadAll(stream) == ([ms[0]] + ms[1..], tail);
      assert ms == [ms[0]] + ms[1..];
    }
  }

  lemma ReadFirst(m: Message, ms: seq<Message>)
    requires |m.data| < TWO_32
    ensures ReadFrame(EncodeAll([m] + ms)) == Frame(Success(m), EncodeAll(ms))
  {
    hide Encode, ReadFrame;
    assert ([m] + ms)[1..] == ms;
    ReadsExactly(EncodeAll([m] + ms), m, EncodeAll(ms));
  }

  class Transport {
    var incoming: seq<byte>
    var guest: Guest
    var closed: bool
    ghost var sent: seq<Message>
    ghost var received: seq<Message>

    constructor (guest: Guest, incoming: seq<byte>, closed: bool)
      ensures this.guest == guest && this.incoming == incoming && this.closed == closed
      ensures sent == [] && received == []
    {
      this.guest := guest;
      this.incoming := incoming;
      this.closed := closed;
      this.sent := [];
      this.received := [];
    }

    /** `read_exact`: all n bytes, or none with the stream drained. */
    method ReadExact(n: nat) returns (r: Option<seq<byte>>)
      modifies this`incoming
      ensures r.Some? <==> n <= |old(incoming)|
      ensures r.Some? ==> r.value == old(incoming)[..n] && incoming == old(incoming)[n..]
      ensures r.None? ==> incoming == []
    {
      if n <= |incoming| {
        r := Some(incoming[..n]);
        incoming := incoming[n..];
      } else {
        r := None;
        incoming := [];
      }
    }

    /** A stream that starves is an end of file once the peer has closed; before that the caller waits until its deadline. */
    method ReadMessage() returns (r: Result<Message, AdbError>)
      modifies this`incoming, this`received
      ensures match ReadFrame(old(incoming))
              case Starved => r == Failure(if closed then UnexpectedEof else Timeout) && incoming == []
              case Frame(result, rest) => r == result && incoming == rest
      ensures received == if r.Success? then old(received) + [r.value] else old(received)
      ensures ReadAll(old(incoming)) == if r.Success? then ([r.value] + ReadAll(incoming).0, ReadAll(incoming).1)
                                        else ([], old(incoming))
      ensures r == Failure(Timeout) <==> ReadFrame(old(incoming)).Starved? && !closed
      ensures r.Success? ==> |incoming| < |old(incoming)|
      ensures r.Failure? ==> r.error in {Timeout, UnexpectedEof, TooShort, MagicMismatch, Incomplete, ChecksumMismatch}
    {
      hide FromBytes, FromLe, Word;
      var header := ReadExact(HEADER_SIZE);
      if header.None? {
        return Failure(if closed then UnexpectedEof else Timeout);
      }
      var dataLen := Word(header.value, 3);
      var buf := header.value;
      WordOfPrefix(old(incoming), HEADER_SIZE, 3);
      if dataLen > 0 {
        var payload := ReadExact(dataLen);
        if payload.None? {
          return Failure(if closed then UnexpectedEof else Timeout);
        }
        buf := buf + payload.value;
        assert buf == old(incoming)[..HEADER_SIZE + dataLen];
      }
      r := FromBytes(buf);
      received := if r.Success? then received + [r.value] else received;
    }

    method WriteMessage(m: Message) returns (ok: bool)
      modifies this`incoming, this`guest, this`sent
      ensures var (g', reply) := React(old(guest), Encode(m));
              && guest == g'
              && (ok <==> reply.Some?)
              && (ok ==> incoming == old(incoming) + reply.value && sent == old(sent) + [m])
              && (!ok ==> incoming == old(incoming) && sent == old(sent))
      ensures old(guest) == Scripted([]) ==> ok && guest == Scripted([]) && incoming == old(incoming)
    {
      var bytes := ToBytes(m);
      var (g', reply) := React(guest, bytes);
      guest := g';
      ok := reply.Some?;
      if ok {
        incoming := incoming + reply.value;
        sent := sent + [m];
      }
    }
  }

  /** The sync guest sees the message the host wrote, and its answers are queued behind what is already waiting. */
  lemma HonestReaction(g: SyncGuest, m: Message)
    requires |m.data| < TWO_32
    ensures React(Honest(g), Encode(m)) == (Honest(Step(g, m).0), Some(EncodeAll(Step(g, m).1)))
  {
    RoundTripIff(m);
  }
}
