/** Running a shell command over one ADB stream and collecting what it prints. */
module AdbShell {
  import opened Wrappers
  import opened Bytes
  import opened AdbProtocol
  import opened AdbTransport

  const SHELL_SERVICE: seq<byte> := [0x73, 0x68, 0x65, 0x6C, 0x6C, 0x3A]

  // ----- what a conversation means -----

  /** The payloads of the WRTE messages, in order. */
  function Output(got: seq<Message>): (r: seq<byte>) {
    if got == [] then []
    else
      var last := got[|got| - 1];
      Output(got[..|got| - 1]) + if last.command == CMD_WRTE then last.data else []
  }

  /** The guest's stream id: the first non-zero id an OKAY names, 0 before that. */
  function RemoteId(got: seq<Message>): (r: u32) {
    if got == [] then 0
    else
      var last := got[|got| - 1];
      var before := RemoteId(got[..|got| - 1]);
      if before == 0 && last.command == CMD_OKAY then last.arg0 else before
  }

  /** One acknowledgement per WRTE, each naming the guest's id as known when it was sent. */
  function Acks(localId: u32, got: seq<Message>): (r: seq<Message>) {
    if got == [] then []
    else
      var before := got[..|got| - 1];
      Acks(localId, before)
      + if got[|got| - 1].command == CMD_WRTE then [Okay(localId, RemoteId(before))] else []
  }

  /** One more message: its payload and its acknowledgement, if it is a WRTE; perhaps the guest's id. */
  lemma ConversationSnoc(localId: u32, got: seq<Message>, m: Message)
    ensures Output(got + [m]) == Output(got) + if m.command == CMD_WRTE then m.data else []
    ensures RemoteId(got + [m]) == if RemoteId(got) == 0 && m.command == CMD_OKAY then m.arg0 else RemoteId(got)
    ensures Acks(localId, got + [m])
         == Acks(localId, got) + if m.command == CMD_WRTE then [Okay(localId, RemoteId(got))] else []
  {
    assert (got + [m])[..|got|] == got;
  }

  predicate Names(m: Message) {
    m.command == CMD_OKAY && m.arg0 != 0
  }

  /** The guest's id is the first one an OKAY names, and 0 only if none does. */
  lemma {:induction false} RemoteIdIsFirst(got: seq<Message>)
    ensures RemoteId(got) == 0 <==> forall i :: 0 <= i < |got| ==> !Names(got[i])
    ensures RemoteId(got) != 0 ==>
      exists i :: 0 <= i < |got| && Names(got[i]) && got[i].arg0 == RemoteId(got) && forall j :: 0 <= j < i ==> !Names(got[j])
  {
    if got != [] {
      var before, last := got[..|got| - 1], |got| - 1;
      RemoteIdIsFirst(before);
      if RemoteId(before) != 0 {
        var i :| 0 <= i < last && Names(before[i]) && before[i].arg0 == RemoteId(got) && forall j :: 0 <= j < i ==> !Names(before[j]);
        assert Names(got[i]) && forall j :: 0 <= j < i ==> got[j] == before[j];
      } else {
        assert forall j :: 0 <= j < last ==> got[j] == before[j];
      }
    }
  }

  function Writes(got: seq<Message>): nat {
    if got == [] then 0 else Writes(got[..|got| - 1]) + if got[|got| - 1].command == CMD_WRTE then 1 else 0
  }

  /** To a guest that names its id first, as it should, every acknowledgement carries the host's id first and the guest's second. */
  lemma {:induction false} AcksName(localId: u32, got: seq<Message>)
    ensures |Acks(localId, got)| == Writes(got)
    ensures got != [] && Names(got[0]) ==>
      RemoteId(got) == got[0].arg0
      && forall i :: 0 <= i < |Acks(localId, got)| ==> Acks(localId, got)[i] == Message(CMD_OKAY, localId, got[0].arg0, [])
  {
    if got != [] {
      var before := got[..|got| - 1];
      AcksName(localId, before);
      if before != [] {
        assert before[0] == got[0];
      }
    }
  }

  predicate Chatter(m: Message) {
    m.command == CMD_OKAY || m.command == CMD_WRTE
  }

  predicate AllChatter(got: seq<Message>) {
    forall i :: 0 <= i < |got| ==> Chatter(got[i])
  }

  /** Chatter up to one closing CLSE: the only conversation that counts as a finished command. */
  predicate Finished(got: seq<Message>) {
    got != [] && got[|got| - 1].command == CMD_CLSE && AllChatter(got[..|got| - 1])
  }

  /** How many messages come before the first that is neither OKAY nor WRTE. */
  function ChatterLength(ms: seq<Message>): (k: nat)
    ensures k <= |ms| && AllChatter(ms[..k])
    ensures k < |ms| ==> !Chatter(ms[k])
  {
    if ms == [] || !Chatter(ms[0]) then 0
    else
      var k := ChatterLength(ms[1..]);
      assert ms[..k + 1] == [ms[0]] + ms[1..][..k];
      k + 1
  }

  /** The command of a message sequence ends with CLSE before anything unexpected. */
  predicate WillFinish(ms: seq<Message>) {
    var k := ChatterLength(ms);
    k < |ms| && ms[k].command == CMD_CLSE
  }

  /** Nothing but chatter, and then nothing at all on a connection the peer has not closed. */
  predicate FallsSilent(ms: seq<Message>, left: seq<byte>, closed: bool) {
    AllChatter(ms) && ReadFrame(left).Starved? && !closed
  }

  lemma {:induction false} ChatterThen(got: seq<Message>, rest: seq<Message>)
    requires AllChatter(got) && (rest == [] || !Chatter(rest[0]))
    ensures ChatterLength(got + rest) == |got|
    ensures WillFinish(got + rest) <==> rest != [] && rest[0].command == CMD_CLSE
  {
    if got == [] {
      assert got + rest == rest;
    } else {
      assert (got + rest)[1..] == got[1..] + rest;
      ChatterThen(got[1..], rest);
    }
  }

  lemma LastHeard(ms: seq<Message>, got: seq<Message>, left: seq<Message>, m: Message)
    requires AllChatter(got) && ms == got + left && left != [] && left[0] == m && !Chatter(m)
    ensures WillFinish(ms) <==> m.command == CMD_CLSE
    ensures ChatterLength(ms) == |got|
    ensures got + [m] <= ms && ms[..|got| + 1] == got + [m]
    ensures !AllChatter(ms)
  {
    assert ms[|got|] == m;
    ChatterThen(got, left);
  }

  lemma FinishedSnoc(got: seq<Message>, m: Message)
    requires AllChatter(got)
    ensures m.command == CMD_CLSE ==> Finished(got + [m])
    ensures Chatter(m) ==> AllChatter(got + [m])
  {
    assert (got + [m])[..|got|] == got;
  }

  /** The output is what the guest wrote, cut into WRTE messages in any way. */
  lemma {:induction false} OutputIsFlatten(payloads: seq<seq<byte>>, local: u32, remote: u32)
    ensures var ms := seq(|payloads|, i requires 0 <= i < |payloads| => Wrte(remote, local, payloads[i]));
            Output(ms) == Flatten(payloads) && |Acks(local, ms)| == |payloads|
  {
    var n := |payloads|;
    var ms := seq(n, i requires 0 <= i < n => Wrte(remote, local, payloads[i]));
    if n > 0 {
      var shorter := payloads[..n - 1];
      OutputIsFlatten(shorter, local, remote);
      assert ms[..n - 1] == seq(n - 1, i requires 0 <= i < n - 1 => Wrte(remote, local, shorter[i]));
      assert payloads == shorter + [payloads[n - 1]];
      FlattenSnoc(shorter, payloads[n - 1]);
    }
  }

  // ----- the loop -----

  /** The table holds what it held before, and the stream of this command. */
  ghost predicate Registered(streams: seq<StreamState>, before: seq<StreamState>, id: u32) {
    && |streams| == |before| + 1
    && streams[..|before|] == before
    && streams[|before|].localId == id
    && Unregistered(before, id)
  }

  lemma UnregisteringRestores(streams: seq<StreamState>, before: seq<StreamState>, id: u32)
    requires Registered(streams, before, id)
    ensures Without(streams, id) == before
  {
    assert streams == before + [streams[|before|]];
    WithoutSnoc(before, streams[|before|]);
    WithoutUnregistered(before, id);
  }

  /** `handle_close` and `remove_stream`, in that order. */
  method Unregister(streams: StreamManager, ghost before: seq<StreamState>, localId: u32)
    requires streams.Valid() && Registered(streams.streams, before, localId)
    modifies streams`streams
    ensures streams.Valid() && streams.streams == before
  {
    streams.HandleClose(localId);
    assert streams.streams[..|before|] == before;
    UnregisteringRestores(streams.streams, before, localId);
    streams.RemoveStream(localId);
  }

  /** `handle_okay`, which cannot fail while the stream is registered. */
  method Learn(streams: StreamManager, ghost before: seq<StreamState>, localId: u32, remoteId: u32)
    returns (handled: Result<(), AdbError>)
    requires streams.Valid() && Registered(streams.streams, before, localId)
    modifies streams`streams
    ensures streams.Valid() && Registered(streams.streams, before, localId)
    ensures |streams.streams| == |before| + 1
    ensures handled.Success?
    ensures streams.streams[|before|] == StreamState(localId, remoteId, true)
  {
    assert streams.streams[|before|].localId == localId;
    handled := streams.HandleOkay(localId, remoteId);
    assert streams.streams[..|before|] == before;
  }

  datatype Verdict = GoOn | Done(ended: Result<(), AdbError>)

  /** One turn of the loop: what message m, received after `got`, leads to. */
  method Handle(t: Transport, streams: StreamManager, ghost before: seq<StreamState>, localId: u32,
                ghost got: seq<Message>, m: Message, output: seq<byte>, remoteId: u32)
    returns (verdict: Verdict, output': seq<byte>, remoteId': u32)
    requires streams.Valid() && Registered(streams.streams, before, localId)
    requires output == Output(got) && remoteId == RemoteId(got)
    modifies t`incoming, t`guest, t`sent, streams`streams
    ensures streams.Valid()
    ensures verdict.GoOn? ==>
      && Chatter(m) && Registered(streams.streams, before, localId)
      && output' == Output(got + [m]) && remoteId' == RemoteId(got + [m])
      && t.sent == old(t.sent) + (if m.command == CMD_WRTE then [Okay(localId, RemoteId(got))] else [])
    ensures Fuel(t.guest) < Fuel(old(t.guest)) || (Fuel(t.guest) == Fuel(old(t.guest)) && t.incoming == old(t.incoming))
    ensures old(t.guest) == Scripted([]) ==> t.guest == Scripted([]) && t.incoming == old(t.incoming)
    ensures verdict.Done? && verdict.ended.Success? ==>
      && m.command == CMD_CLSE && output' == Output(got + [m]) && streams.streams == before && t.sent == old(t.sent)
    ensures verdict.Done? && verdict.ended.Failure? ==>
      && Registered(streams.streams, before, localId) && verdict.ended.error !in {UnknownStream, Timeout}
      && (old(t.guest) == Scripted([]) ==> !Chatter(m) && m.command != CMD_CLSE)
  {
    ConversationSnoc(localId, got, m);
    output', remoteId' := output, remoteId;
    if m.command == CMD_OKAY {
      if remoteId == 0 {
        remoteId' := m.arg0;
        var _ := Learn(streams, before, localId, remoteId');
      }
    } else if m.command == CMD_WRTE {
      output' := output + m.data;
      AcknowledgementProgress(t.guest, localId, remoteId);
      var sentAck := t.WriteMessage(Okay(localId, remoteId));
      if !sentAck {
        return Done(Failure(Io)), output', remoteId';
      }
    } else if m.command == CMD_CLSE {
      Unregister(streams, before, localId);
      return Done(Success(())), output', remoteId';
    } else {
      return Done(Failure(UnexpectedCommand(m.command))), output', remoteId';
    }
    return GoOn, output', remoteId';
  }

  /** The conversation so far, and what the host made of it. */
  ghost predicate Heard(localId: u32, got: seq<Message>, output: seq<byte>, remoteId: u32, acks: seq<Message>) {
    AllChatter(got) && output == Output(got) && remoteId == RemoteId(got) && acks == Acks(localId, got)
  }

  /** A guest's whole side of a conversation: its messages, and the bytes behind them that are none. */
  datatype Side = Side(ms: seq<Message>, left: seq<byte>, closed: bool)

  function SideOf(incoming: seq<byte>, closed: bool): Side {
    var (ms, left) := ReadAll(incoming);
    Side(ms, left, closed)
  }

  lemma HeardSays(localId: u32, got: seq<Message>, remoteId: u32, acks: seq<Message>)
    requires exists output :: Heard(localId, got, output, remoteId, acks)
    ensures AllChatter(got) && remoteId == RemoteId(got) && acks == Acks(localId, got)
  {
  }

  /** When the guest's whole side is already there, what was heard and what is left make it up. */
  ghost predicate Follows(whole: bool, guest: Guest, incoming: seq<byte>, side: Side, got: seq<Message>) {
    whole ==> guest == Scripted([]) && side.ms == got + ReadAll(incoming).0 && side.left == ReadAll(incoming).1
  }

  /** How a conversation ended, seen from its beginning. */
  ghost predicate Ends(whole: bool, guest: Guest, side: Side, got: seq<Message>, ended: Result<(), AdbError>) {
    whole ==>
      && guest == Scripted([])
      && got <= side.ms
      && (ended.Success? <==> WillFinish(side.ms))
      && (ended.Success? ==> ChatterLength(side.ms) < |side.ms| && got == side.ms[..ChatterLength(side.ms) + 1])
      && (ended == Failure(Timeout) <==> FallsSilent(side.ms, side.left, side.closed))
  }

  /** One turn: read a message and handle it. */
  method Turn(t: Transport, streams: StreamManager, ghost before: seq<StreamState>, localId: u32,
              ghost whole: bool, ghost side: Side, ghost got: seq<Message>, ghost acks: seq<Message>,
              output: seq<byte>, remoteId: u32)
    returns (verdict: Verdict, output': seq<byte>, remoteId': u32, ghost got': seq<Message>, ghost acks': seq<Message>)
    requires streams.Valid() && Registered(streams.streams, before, localId)
    requires Heard(localId, got, output, remoteId, acks) && Follows(whole, t.guest, t.incoming, side, got)
    requires side.closed == t.closed
    modifies t`incoming, t`guest, t`sent, t`received, streams`streams
    ensures streams.Valid()
    ensures got <= got' && t.received == old(t.received) + got'[|got|..]
    ensures verdict.GoOn? ==>
      && Registered(streams.streams, before, localId)
      && Heard(localId, got', output', remoteId', acks') && Follows(whole, t.guest, t.incoming, side, got')
      && acks <= acks' && t.sent == old(t.sent) + acks'[|acks|..]
    ensures verdict.GoOn? ==>
      Fuel(t.guest) < Fuel(old(t.guest)) || (Fuel(t.guest) == Fuel(old(t.guest)) && |t.incoming| < |old(t.incoming)|)
    ensures verdict.Done? ==> Ends(whole, t.guest, side, got', verdict.ended)
    ensures verdict.Done? && verdict.ended.Success? ==>
      && Finished(got') && output' == Output(got') && streams.streams == before
      && acks == Acks(localId, got') && t.sent == old(t.sent)
    ensures verdict.Done? && verdict.ended.Failure? ==>
      Registered(streams.streams, before, localId) && verdict.ended.error != UnknownStream
    ensures verdict == Done(Failure(Timeout)) ==> got' == got && remoteId' == remoteId && t.sent == old(t.sent)
  {
    hide Encode, React, ReadFrame, ReadAll, Fuel, WillFinish, ChatterLength, Registered, DistinctIds, Output,
      RemoteId, Acks, Finished, AllChatter, ToLe, FromLe;
    ghost var left := ReadAll(t.incoming).0;
    got', acks' := got, acks;
    var msg := t.ReadMessage();
    if msg.Failure? {
      if whole {
        ChatterThen(got, left);
        assert left == [] && side.ms == got;
      }
      return Done(Failure(msg.error)), output, remoteId, got', acks';
    }
    var m := msg.value;
    got' := got + [m];
    Assoc(got, [m], ReadAll(t.incoming).0);
    ConversationSnoc(localId, got, m);
    FinishedSnoc(got, m);
    verdict, output', remoteId' := Handle(t, streams, before, localId, got, m, output, remoteId);
    if verdict.GoOn? {
      acks' := acks + if m.command == CMD_WRTE then [Okay(localId, RemoteId(got))] else [];
    } else if whole {
      LastHeard(side.ms, got, left, m);
    }
  }

  /** The part under the deadline: read and acknowledge until CLSE, an error, or nothing more arrives. */
  method Converse(t: Transport, streams: StreamManager, ghost before: seq<StreamState>, localId: u32)
    returns (ended: Result<(), AdbError>, output: seq<byte>, remoteId: u32, ghost got: seq<Message>)
    requires streams.Valid() && Registered(streams.streams, before, localId)
    modifies t`incoming, t`guest, t`sent, t`received, streams`streams
    ensures streams.Valid()
    ensures t.received == old(t.received) + got
    ensures ended.Success? ==>
      && Finished(got) && output == Output(got) && streams.streams == before
      && t.sent == old(t.sent) + Acks(localId, got)
    ensures ended.Failure? ==>
      && Registered(streams.streams, before, localId)
      && ended.error != UnknownStream
    ensures ended == Failure(Timeout) ==>
      AllChatter(got) && remoteId == RemoteId(got) && t.sent == old(t.sent) + Acks(localId, got)
    ensures Ends(old(t.guest) == Scripted([]), t.guest, SideOf(old(t.incoming), t.closed), got, ended)
  {
    assert Heard(localId, [], [], 0, []);
    ghost var side := SideOf(t.incoming, t.closed);
    ghost var whole := t.guest == Scripted([]);
    ghost var acks: seq<Message> := [];
    output, remoteId, got := [], 0, [];
    assert Follows(whole, t.guest, t.incoming, side, []);
    hide Heard, Follows, Ends, Registered, DistinctIds, Fuel, ReadAll, Finished, Output, Acks;
    while true
      invariant streams.Valid()
      invariant Registered(streams.streams, before, localId)
      invariant Heard(localId, got, output, remoteId, acks) && Follows(whole, t.guest, t.incoming, side, got)
      invariant t.received == old(t.received) + got
      invariant t.sent == old(t.sent) + acks
      decreases Fuel(t.guest), |t.incoming|
    {
      ghost var was, wasAcks := got, acks;
      var verdict;
      verdict, output, remoteId, got, acks :=
        Turn(t, streams, before, localId, whole, side, got, acks, output, remoteId);
      Grow(old(t.received), was, got);
      if verdict.Done? {
        if verdict.ended == Failure(Timeout) {
          HeardSays(localId, got, remoteId, wasAcks);
        }
        return verdict.ended, output, remoteId, got;
      }
      Grow(old(t.sent), wasAcks, acks);
    }
  }

  lemma Grow<T>(base: seq<T>, a: seq<T>, b: seq<T>)
    requires a <= b
    ensures base + a + b[|a|..] == base + b
  {
  }

  /** The CLSE that ends a conversation with a guest whose id is known. */
  function Goodbye(localId: u32, got: seq<Message>): seq<Message> {
    if RemoteId(got) != 0 then [Clse(localId, RemoteId(got))] else []
  }

  /** Open a stream to a service, hear it out, and close the stream. */
  method Execute(t: Transport, streams: StreamManager, destination: seq<byte>)
    returns (r: Result<seq<byte>, AdbError>, ghost got: seq<Message>)
    requires streams.Valid() && streams.nextLocalId < 0xFFFF_FFFF
    modifies t`incoming, t`guest, t`sent, t`received, streams
    ensures streams.Valid() && streams.nextLocalId == old(streams.nextLocalId) + 1
    ensures t.received == old(t.received) + got
    // Success is a finished conversation, all of its output, and one acknowledgement per WRTE.
    ensures r.Success? ==> Finished(got) && r.value == Output(got)
    ensures r.Success? ==>
      var id := old(streams.nextLocalId);
      t.sent == old(t.sent) + [Open(id, destination)] + Acks(id, got)
    // On a timeout the host says goodbye if it knows the guest's id, unless that write fails.
    ensures r == Failure(Timeout) ==>
      var id := old(streams.nextLocalId);
      var said := old(t.sent) + [Open(id, destination)] + Acks(id, got);
      && AllChatter(got)
      && (t.sent == said + Goodbye(id, got) || (t.sent == said && old(t.guest) != Scripted([])))
    // The table is back to what it was after success or timeout; every other failure leaves the stream in it.
    ensures streams.streams == old(streams.streams) <==> r.Success? || r.error == Timeout
    ensures r != Failure(UnknownStream)
    // Against a guest whose whole side of the conversation has already arrived, it succeeds exactly when that side
    // finishes, and the stream is gone exactly if it does that or falls silent.
    ensures old(t.guest) == Scripted([]) ==>
      var (ms, left) := ReadAll(old(t.incoming));
      && got <= ms
      && (r.Success? <==> WillFinish(ms))
      && (r.Success? ==> got == ms[..ChatterLength(ms) + 1])
      && (streams.streams == old(streams.streams) <==> WillFinish(ms) || FallsSilent(ms, left, t.closed))
  {
    hide Encode, React, ReadFrame, ReadAll, DistinctIds, ToLe, FromLe;
    ghost var before := streams.streams;
    got := [];
    var localId := streams.OpenStream();
    var sentOpen := t.WriteMessage(Open(localId, destination));
    if !sentOpen {
      return Failure(Io), got;
    }
    var ended, output, remoteId;
    ended, output, remoteId, got := Converse(t, streams, before, localId);
    if ended.Success? {
      return Success(output), got;
    }
    if ended.error == Timeout {
      if remoteId != 0 {
        var _ := t.WriteMessage(Clse(localId, remoteId));
      }
      Unregister(streams, before, localId);
    }
    return Failure(ended.error), got;
  }

  method ShellExec(t: Transport, streams: StreamManager, command: seq<byte>)
    returns (r: Result<seq<byte>, AdbError>, ghost got: seq<Message>)
    requires streams.Valid() && streams.nextLocalId < 0xFFFF_FFFF
    modifies t`incoming, t`guest, t`sent, t`received, streams
    ensures streams.Valid() && streams.nextLocalId == old(streams.nextLocalId) + 1
    ensures t.received == old(t.received) + got
    // Success is a finished conversation, all of its output, and one acknowledgement per WRTE.
    ensures r.Success? ==> Finished(got) && r.value == Output(got)
    ensures r.Success? ==>
      var id := old(streams.nextLocalId);
      t.sent == old(t.sent) + [Open(id, SHELL_SERVICE + command)] + Acks(id, got)
    // On a timeout the host says goodbye if it knows the guest's id, unless that write fails.
    ensures r == Failure(Timeout) ==>
      var id := old(streams.nextLocalId);
      var said := old(t.sent) + [Open(id, SHELL_SERVICE + command)] + Acks(id, got);
      && AllChatter(got)
      && (t.sent == said + Goodbye(id, got) || (t.sent == said && old(t.guest) != Scripted([])))
    // The table is back to what it was after success or timeout; every other failure leaves the stream in it.
    ensures streams.streams == old(streams.streams) <==> r.Success? || r.error == Timeout
    ensures r != Failure(UnknownStream)
    // Against a guest whose whole side of the conversation has already arrived, it succeeds exactly when that side
    // finishes, and the stream is gone exactly if it does that or falls silent.
    ensures old(t.guest) == Scripted([]) ==>
      var (ms, left) := ReadAll(old(t.incoming));
      && got <= ms
      && (r.Success? <==> WillFinish(ms))
      && (r.Success? ==> got == ms[..ChatterLength(ms) + 1])
      && (streams.streams == old(streams.streams) <==> WillFinish(ms) || FallsSilent(ms, left, t.closed))
  {
    r, got := Execute(t, streams, SHELL_SERVICE + command);
  }

  const PNG_MAGIC: seq<byte> := [0x89, 0x50, 0x4E, 0x47]

  /** `screencap -p` */
  const SCREENCAP: seq<byte> := [0x73, 0x63, 0x72, 0x65, 0x65, 0x6E, 0x63, 0x61, 0x70, 0x20, 0x2D, 0x70]

  predicate IsPng(data: seq<byte>) {
    |data| >= 8 && PNG_MAGIC <= data
  }

  datatype ScreenshotError = NotAnImage | Adb(error: AdbError)

  /** The same conversation, whose output counts only if it looks like a PNG. */
  method CaptureScreenshot(t: Transport, streams: StreamManager)
    returns (r: Result<seq<byte>, ScreenshotError>, ghost got: seq<Message>)
    requires streams.Valid() && streams.nextLocalId < 0xFFFF_FFFF
    modifies t`incoming, t`guest, t`sent, t`received, streams
    ensures streams.Valid() && streams.nextLocalId == old(streams.nextLocalId) + 1
    ensures t.received == old(t.received) + got
    ensures r.Success? ==> Finished(got) && r.value == Output(got) && IsPng(r.value)
    ensures r.Success? ==>
      var id := old(streams.nextLocalId);
      t.sent == old(t.sent) + [Open(id, SHELL_SERVICE + SCREENCAP)] + Acks(id, got)
    ensures r == Failure(NotAnImage) ==> Finished(got) && !IsPng(Output(got))
    // On a timeout the host says goodbye if it knows the guest's id, unless that write fails.
    ensures r == Failure(Adb(Timeout)) ==>
      var id := old(streams.nextLocalId);
      var said := old(t.sent) + [Open(id, SHELL_SERVICE + SCREENCAP)] + Acks(id, got);
      && AllChatter(got)
      && (t.sent == said + Goodbye(id, got) || (t.sent == said && old(t.guest) != Scripted([])))
    ensures streams.streams == old(streams.streams) <==> r.Success? || r.error in {NotAnImage, Adb(Timeout)}
    ensures old(t.guest) == Scripted([]) ==>
      var (ms, left) := ReadAll(old(t.incoming));
      && (r.Success? <==> WillFinish(ms) && IsPng(Output(ms[..ChatterLength(ms) + 1])))
      && (streams.streams == old(streams.streams) <==> WillFinish(ms) || FallsSilent(ms, left, t.closed))
  {
    hide ReadAll, Output, Acks, Finished, DistinctIds, Encode;
    var executed;
    executed, got := Execute(t, streams, SHELL_SERVICE + SCREENCAP);
    if executed.Failure? {
      return Failure(Adb(executed.error)), got;
    }
    if !IsPng(executed.value) {
      return Failure(NotAnImage), got;
    }
    r := Success(executed.value);
  }
}
