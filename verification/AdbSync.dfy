/** Pushing and pulling files over a `sync:` stream. */
module AdbSync {
  import opened Wrappers
  import opened Bytes
  import opened AdbProtocol
  import opened AdbSyncCodec
  import opened AdbSyncGuest
  import opened AdbTransport
  import opened AdbShell

  datatype Session = Session(localId: u32, remoteId: u32)

  /** A host file as reading it shows it: the pieces `read` returns, then end of file or an error. */
  datatype HostFile = Missing | HostFile(size: nat, pieces: seq<seq<byte>>, readFails: bool)

  ghost predicate GoodPieces(pieces: seq<seq<byte>>) {
    forall i :: 0 <= i < |pieces| ==> 0 < |pieces[i]| <= SYNC_DATA_MAX
  }

  /** The host file being written: whether it can be created, which write fails, whether the flush works. */
  datatype Sink = Sink(creates: bool, failsAt: Option<nat>, flushes: bool)

  const GOOD_SINK: Sink := Sink(true, None, true)

  // ----- what goes over the wire -----

  /** `{:o}`. */
  function Octal(n: nat): (r: seq<byte>) {
    if n < 8 then [0x30 + n] else Octal(n / 8) + [0x30 + n % 8]
  }

  lemma {:induction false} OctalHasNoComma(n: nat)
    ensures COMMA !in Octal(n) && |Octal(n)| <= n + 1
  {
    if n >= 8 {
      OctalHasNoComma(n / 8);
    }
  }

  /** Octal digits read back as the number, without a leading zero. */
  lemma {:induction false} OctalReadsBack(n: nat)
    ensures ReadOctal(Octal(n)) == Some(n) && (n > 0 ==> Octal(n)[0] != 0x30)
  {
    if n >= 8 {
      OctalReadsBack(n / 8);
      var high := Octal(n / 8);
      assert (high + [0x30 + n % 8])[..|high|] == high;
      assert high != [];
    }
  }

  function SendArgument(path: Path, permissions: u32): seq<byte> {
    path + [COMMA] + Octal(permissions)
  }

  function InSync(s: Session, command: Tag, data: seq<byte>): Message {
    Wrte(s.localId, s.remoteId, SyncEncode(SyncMessage(command, data)))
  }

  function DataWrites(s: Session, pieces: seq<seq<byte>>): (r: seq<Message>)
    ensures |r| == |pieces|
    ensures forall i :: 0 <= i < |r| ==> r[i] == InSync(s, SYNC_DATA, pieces[i])
  {
    seq(|pieces|, i requires 0 <= i < |pieces| => InSync(s, SYNC_DATA, pieces[i]))
  }

  /** OPEN, SEND, one DATA per piece, DONE, and the acknowledgement of the guest's answer. */
  function PushTrace(s: Session, path: Path, permissions: u32, pieces: seq<seq<byte>>, mtime: u32): (r: seq<Message>)
    ensures |r| == |pieces| + 4
  {
    [Open(s.localId, SYNC_SERVICE), InSync(s, SYNC_SEND, SendArgument(path, permissions))]
    + DataWrites(s, pieces)
    + [InSync(s, SYNC_DONE, ToLe(mtime)), Okay(s.localId, s.remoteId)]
  }

  // ----- how the guest takes each message -----

  lemma OpenStep(g: SyncGuest, localId: u32)
    requires g.phase.Closed?
    ensures Step(g, Open(localId, SYNC_SERVICE)) == (g.(phase := Idle(localId)), [Okay(g.id, localId)])
  {
  }

  lemma CommandStep(g: SyncGuest, s: Session, command: Tag, data: seq<byte>)
    requires !g.phase.Closed? && |data| < TWO_32 - 8
    ensures Step(g, InSync(s, command, data)) == Obey(g, g.phase.host, SyncMessage(command, data))
    ensures |InSync(s, command, data).data| < TWO_32
  {
    hide Obey, SyncDecode, SyncEncode;
    SyncRoundTripIff(SyncMessage(command, data));
    SyncFields(SyncMessage(command, data), []);
    assert SyncEncode(SyncMessage(command, data)) + [] == SyncEncode(SyncMessage(command, data));
  }

  // ----- one exchange -----

  /** The first n messages are all OKAY. */
  predicate Okays(ms: seq<Message>, n: nat): (all: bool)
    ensures all ==> n <= |ms|
    ensures n == 0 ==> all
  {
    n <= |ms| && forall i :: 0 <= i < n ==> ms[i].command == CMD_OKAY
  }

  /** The data of the WRTE that follows n OKAYs, if that is how the messages begin. */
  function AnswerAfter(ms: seq<Message>, n: nat): Option<seq<byte>> {
    if Okays(ms, n) && n < |ms| && ms[n].command == CMD_WRTE then Some(ms[n].data) else None
  }

  lemma OkaysThen(ms: seq<Message>, a: nat, b: nat)
    ensures Okays(ms, a + b) <==> Okays(ms, a) && Okays(ms[a..], b)
    ensures AnswerAfter(ms, a + b) == if Okays(ms, a) then AnswerAfter(ms[a..], b) else None
  {
    if Okays(ms, a) && Okays(ms[a..], b) {
      forall i | 0 <= i < a + b
        ensures ms[i].command == CMD_OKAY
      {
        assert i >= a ==> ms[i] == ms[a..][i - a];
      }
    }
    if Okays(ms, a + b) {
      assert forall i :: 0 <= i < b ==> ms[a..][i] == ms[a + i];
    }
  }

  lemma PushOkays(ms: seq<Message>, n: nat)
    ensures AnswerAfter(ms, n + 3)
         == if Okays(ms, 2) && Okays(ms[2..], n) then AnswerAfter(ms[2..][n..], 1) else None
  {
    OkaysThen(ms, 2, n + 1);
    if Okays(ms, 2) {
      OkaysThen(ms[2..], n, 1);
    }
  }

  /** The guest's whole side has arrived, and these are its messages. */
  ghost predicate Arrived(t: Transport, ms: seq<Message>)
    reads t`guest, t`incoming
  {
    t.guest == Scripted([]) && ReadAll(t.incoming).0 == ms
  }

  /** `send_sync_data`: one WRTE, one OKAY. */
  method SendSyncData(s: Session, t: Transport, data: seq<byte>, ghost g: SyncGuest, ghost pending: seq<Message>)
    returns (r: Result<(), AdbError>)
    modifies t`incoming, t`guest, t`sent, t`received
    ensures r.Success? ==> t.sent == old(t.sent) + [Wrte(s.localId, s.remoteId, data)]
    ensures r.Failure? ==> r.error != SlicePanic && |t.sent| <= |old(t.sent)| + 1
    ensures old(t.guest) == Scripted([]) ==>
      var ms := ReadAll(old(t.incoming)).0;
      && (r.Success? <==> Okays(ms, 1))
      && (r.Success? ==> Arrived(t, ms[1..]))
    ensures
      var m := Wrte(s.localId, s.remoteId, data);
      var queue := pending + Step(g, m).1;
      old(t.guest) == Honest(g) && old(t.incoming) == EncodeAll(pending) && |data| < TWO_32
      && Framable(queue) && queue != []
      ==> t.guest == Honest(Step(g, m).0) && t.incoming == EncodeAll(queue[1..])
          && (r.Success? <==> queue[0].command == CMD_OKAY)
          && (r.Failure? ==> r.error == SyncError)
  {
    hide Encode, React, ReadFrame, ReadAll, Step, EncodeAll, ToLe, FromLe;
    ghost var m := Wrte(s.localId, s.remoteId, data);
    ghost var queue := pending + Step(g, m).1;
    ghost var honest := t.guest == Honest(g) && t.incoming == EncodeAll(pending) && |data| < TWO_32
                        && Framable(queue) && queue != [];
    if honest {
      HonestReaction(g, m);
      EncodeAllAppend(pending, Step(g, m).1);
      ReadFirst(queue[0], queue[1..]);
      assert queue == [queue[0]] + queue[1..];
    }
    ghost var ms := ReadAll(t.incoming).0;
    var written := t.WriteMessage(Wrte(s.localId, s.remoteId, data));
    if !written {
      return Failure(Io);
    }
    var resp := t.ReadMessage();
    assert old(t.guest) == Scripted([]) && resp.Success? ==> ms[0] == resp.value && ms[1..] == ReadAll(t.incoming).0;
    if resp.Failure? {
      return Failure(resp.error);
    }
    if resp.value.command != CMD_OKAY {
      return Failure(SyncError);
    }
    return Success(());
  }

  /** The next frame in the channel is sound but is not a WRTE. */
  ghost predicate Misread(incoming: seq<byte>) {
    var f := ReadFrame(incoming);
    f.Frame? && f.message.Success? && f.message.value.command != CMD_WRTE
  }

  /** `recv_sync_data`: one WRTE from the guest, acknowledged. */
  method RecvSyncData(s: Session, t: Transport, ghost g: SyncGuest, ghost pending: seq<Message>)
    returns (r: Result<seq<byte>, AdbError>)
    modifies t`incoming, t`guest, t`sent, t`received
    ensures r.Success? ==>
      && t.sent == old(t.sent) + [Okay(s.localId, s.remoteId)]
      && |t.received| == |old(t.received)| + 1 && old(t.received) <= t.received
      && t.received[|old(t.received)|].command == CMD_WRTE
      && t.received[|old(t.received)|].data == r.value
    ensures r.Failure? ==> r.error != SlicePanic && t.sent == old(t.sent)
    ensures old(t.guest) == Scripted([]) ==>
      var ms := ReadAll(old(t.incoming)).0;
      && AnswerAfter(ms, 0) == (if r.Success? then Some(r.value) else None)
      && (r.Success? ==> Arrived(t, ms[1..]))
    ensures
      var ack := Okay(s.localId, s.remoteId);
      old(t.guest) == Honest(g) && old(t.incoming) == EncodeAll(pending) && Framable(pending) && pending != []
      ==> if pending[0].command == CMD_WRTE then
            && r == Success(pending[0].data)
            && t.guest == Honest(Step(g, ack).0)
            && t.incoming == EncodeAll(pending[1..] + Step(g, ack).1)
          else r == Failure(SyncError)
    ensures Misread(old(t.incoming)) ==> r == Failure(SyncError)
    ensures Fuel(t.guest) < Fuel(old(t.guest))
         || (Fuel(t.guest) == Fuel(old(t.guest)) && (r.Success? ==> |t.incoming| < |old(t.incoming)|))
  {
    hide Encode, React, ReadFrame, ReadAll, Step, EncodeAll, Fuel, ToLe, FromLe;
    ghost var ack := Okay(s.localId, s.remoteId);
    ghost var honest := t.guest == Honest(g) && t.incoming == EncodeAll(pending) && Framable(pending) && pending != [];
    if honest {
      assert pending == [pending[0]] + pending[1..];
      ReadFirst(pending[0], pending[1..]);
      HonestReaction(g, ack);
      EncodeAllAppend(pending[1..], Step(g, ack).1);
    }
    var msg := t.ReadMessage();
    if msg.Failure? {
      return Failure(msg.error);
    }
    if msg.value.command == CMD_WRTE {
      AcknowledgementProgress(t.guest, s.localId, s.remoteId);
      var written := t.WriteMessage(Okay(s.localId, s.remoteId));
      if !written {
        return Failure(Io);
      }
      return Success(msg.value.data);
    }
    return Failure(SyncError);
  }

  /** What the guest leaves unread in the channel when a session closes: its answer to QUIT. */
  function Leftover(g: SyncGuest, host: u32): (r: seq<Message>) {
    if g.acksQuit then [Okay(g.id, host)] else []
  }

  /** OPEN puts the guest's OKAY behind what is already waiting. */
  lemma OpenQueue(g: SyncGuest, localId: u32, pending: seq<Message>)
    requires g.phase.Closed? && Framable(pending)
    ensures var queue := pending + [Okay(g.id, localId)];
            && React(Honest(g), Encode(Open(localId, SYNC_SERVICE)))
               == (Honest(g.(phase := Idle(localId))), Some(EncodeAll([Okay(g.id, localId)])))
            && EncodeAll(pending) + EncodeAll([Okay(g.id, localId)]) == EncodeAll(queue)
            && ReadFrame(EncodeAll(queue)) == Frame(Success(queue[0]), EncodeAll(queue[1..]))
  {
    hide Encode, React, ReadFrame, EncodeAll, Step;
    var queue := pending + [Okay(g.id, localId)];
    OpenStep(g, localId);
    HonestReaction(g, Open(localId, SYNC_SERVICE));
    EncodeAllAppend(pending, [Okay(g.id, localId)]);
    ReadFirst(queue[0], queue[1..]);
    assert queue == [queue[0]] + queue[1..];
  }

  method OpenSession(t: Transport, streams: StreamManager, ghost g: SyncGuest, ghost pending: seq<Message>)
    returns (r: Result<Session, AdbError>)
    requires streams.Valid() && streams.nextLocalId < 0xFFFF_FFFF
    modifies t`incoming, t`guest, t`sent, t`received, streams
    ensures streams.Valid() && streams.nextLocalId == old(streams.nextLocalId) + 1
    ensures Registered(streams.streams, old(streams.streams), old(streams.nextLocalId))
    ensures r.Success? ==>
      && r.value.localId == old(streams.nextLocalId)
      && t.sent == old(t.sent) + [Open(r.value.localId, SYNC_SERVICE)]
    ensures r.Failure? ==> r.error != SlicePanic && |t.sent| <= |old(t.sent)| + 1
    ensures old(t.guest) == Scripted([]) ==>
      var ms := ReadAll(old(t.incoming)).0;
      && (r.Success? <==> Okays(ms, 1))
      && (r.Success? ==> Arrived(t, ms[1..]))
    ensures
      var id := old(streams.nextLocalId);
      var queue := pending + [Okay(g.id, id)];
      old(t.guest) == Honest(g) && g.phase.Closed? && old(t.incoming) == EncodeAll(pending) && Framable(pending)
      ==> t.guest == Honest(g.(phase := Idle(id))) && t.incoming == EncodeAll(queue[1..])
          && (queue[0].command == CMD_OKAY ==> r == Success(Session(id, queue[0].arg0)))
  {
    hide Encode, React, ReadFrame, ReadAll, EncodeAll, SyncEncode, SyncDecode, Step, ToLe, FromLe, DistinctIds,
      Fuel;
    ghost var before := streams.streams;
    var localId := streams.OpenStream();
    assert Registered(streams.streams, before, localId);
    hide Registered;
    ghost var honest := t.guest == Honest(g) && g.phase.Closed? && t.incoming == EncodeAll(pending) && Framable(pending);
    if honest {
      OpenQueue(g, localId, pending);
    }
    ghost var ms := ReadAll(t.incoming).0;
    var written := t.WriteMessage(Open(localId, SYNC_SERVICE));
    if !written {
      return Failure(Io);
    }
    var msg := t.ReadMessage();
    assert old(t.guest) == Scripted([]) && msg.Success? ==> ms[0] == msg.value && ms[1..] == ReadAll(t.incoming).0;
    if msg.Failure? {
      return Failure(if msg.error == Timeout then Timeout else SyncError);
    }
    if msg.value.command != CMD_OKAY {
      return Failure(SyncError);
    }
    var remoteId := msg.value.arg0;
    var _ := Learn(streams, before, localId, remoteId);
    return Success(Session(localId, remoteId));
  }

  lemma CloseStep(g: SyncGuest, s: Session)
    ensures Step(g, Clse(s.localId, s.remoteId)) == (g.(phase := Closed), [])
  {
  }

  /** QUIT and CLSE, neither answer awaited; the stream leaves the table. */
  method CloseSession(s: Session, t: Transport, streams: StreamManager, ghost before: seq<StreamState>,
                      ghost g: SyncGuest, ghost pending: seq<Message>)
    requires streams.Valid() && Registered(streams.streams, before, s.localId)
    modifies t`incoming, t`guest, t`sent, t`received, streams`streams
    ensures streams.Valid() && streams.streams == before
    ensures old(t.sent) <= t.sent && t.received == old(t.received)
    ensures old(t.guest) == Honest(g) && g.phase.Idle? && old(t.incoming) == EncodeAll(pending)
      ==> t.guest == Honest(g.(phase := Closed)) && t.incoming == EncodeAll(pending + Leftover(g, g.phase.host))
  {
    hide Encode, React, ReadFrame, ReadAll, EncodeAll, Registered, SyncEncode, SyncDecode, Step, ToLe, FromLe,
      DistinctIds, Fuel;
    var quit := InSync(s, SYNC_QUIT, []);
    ghost var honest := t.guest == Honest(g) && g.phase.Idle? && t.incoming == EncodeAll(pending);
    if honest {
      CommandStep(g, s, SYNC_QUIT, []);
      HonestReaction(g, quit);
      EncodeAllAppend(pending, Leftover(g, g.phase.host));
    }
    var _ := t.WriteMessage(quit);
    if honest {
      CloseStep(g, s);
      HonestReaction(g, Clse(s.localId, s.remoteId));
      EncodeNothing(t.incoming);
    }
    var _ := t.WriteMessage(Clse(s.localId, s.remoteId));
    Unregister(streams, before, s.localId);
  }

  lemma OnlyAnswer(m: Message)
    ensures [] + [m] == [m] && [m][1..] == []
  {
  }

  lemma EncodeNothing(b: seq<byte>)
    ensures EncodeAll([]) == [] && b + EncodeAll([]) == b
  {
  }

  // ----- push -----

  /**
   The first i pieces are out: all of them sent, each of them acknowledged if the guest's whole side `ms` had arrived,
   and received by the sync guest `g` if it is that one.
   */
  ghost predicate PiecesOut(t: Transport, was: seq<Message>, s: Session, pieces: seq<seq<byte>>, i: nat,
                            whole: bool, ms: seq<Message>, honest: bool, g: SyncGuest)
    reads t`sent, t`guest, t`incoming
    requires i <= |pieces|
  {
    && t.sent == was + DataWrites(s, pieces[..i])
    && (whole ==> Okays(ms, i) && Arrived(t, ms[i..]))
    && (honest ==>
          && g.phase.Receiving? && t.incoming == []
          && t.guest == Honest(g.(phase := g.phase.(content := g.phase.content + Flatten(pieces[..i])))))
  }

  /** One more piece. */
  method SendPiece(s: Session, t: Transport, pieces: seq<seq<byte>>, i: nat, ghost was: seq<Message>,
                   ghost whole: bool, ghost ms: seq<Message>, ghost honest: bool, ghost g: SyncGuest)
    returns (r: Result<(), AdbError>)
    requires i < |pieces| && |pieces[i]| <= SYNC_DATA_MAX && PiecesOut(t, was, s, pieces, i, whole, ms, honest, g)
    modifies t`incoming, t`guest, t`sent, t`received
    ensures r.Success? ==> PiecesOut(t, was, s, pieces, i + 1, whole, ms, honest, g)
    ensures r.Failure? ==>
      r.error != SlicePanic && |t.sent| <= |was| + i + 1 && !honest && (whole ==> !Okays(ms, |pieces|))
  {
    hide Encode, React, ReadFrame, ReadAll, EncodeAll, Step, Obey, SyncEncode, Flatten, DataWrites, ToLe,
      FromLe, Okays, GoodPieces, Fuel;
    ghost var now := if honest then g.(phase := g.phase.(content := g.phase.content + Flatten(pieces[..i]))) else g;
    if honest {
      DataStep(now, s, pieces[i]);
      EncodeNothing([]);
      OnlyAnswer(Okay(now.id, now.phase.host));
      Assoc(g.phase.content, Flatten(pieces[..i]), pieces[i]);
    }
    NextPiece(s, pieces, i);
    Assoc(was, DataWrites(s, pieces[..i]), [InSync(s, SYNC_DATA, pieces[i])]);
    OkaysThen(ms, i, 1);
    OkaysThen(ms, i + 1, |pieces| - i - 1);
    r := SendSyncData(s, t, SyncEncode(SyncMessage(SYNC_DATA, pieces[i])), now, []);
    assert whole && r.Success? ==> ms[i..][1..] == ms[i + 1..];
  }

  /** The loop over the host file. */
  method SendPieces(s: Session, t: Transport, file: HostFile, ghost g: SyncGuest)
    returns (r: Result<(), AdbError>, progress: seq<(nat, nat)>)
    requires file.HostFile? && GoodPieces(file.pieces)
    modifies t`incoming, t`guest, t`sent, t`received
    ensures r.Success? ==>
      && !file.readFails && |progress| == |file.pieces|
      && t.sent == old(t.sent) + DataWrites(s, file.pieces)
    ensures r.Failure? ==> r.error != SlicePanic && |t.sent| <= |old(t.sent)| + |file.pieces|
    ensures |progress| <= |file.pieces|
    ensures forall i :: 0 <= i < |progress| ==> progress[i] == (|Flatten(file.pieces[..i + 1])|, file.size)
    ensures old(t.guest) == Scripted([]) ==>
      var ms := ReadAll(old(t.incoming)).0;
      && (r.Success? <==> Okays(ms, |file.pieces|) && !file.readFails)
      && (r.Success? ==> Arrived(t, ms[|file.pieces|..]))
    ensures old(t.guest) == Honest(g) && g.phase.Receiving? && old(t.incoming) == [] && !file.readFails
      ==>
        && r.Success? && t.incoming == []
        && t.guest == Honest(g.(phase := g.phase.(content := g.phase.content + Flatten(file.pieces))))
  {
    hide Encode, React, ReadFrame, ReadAll, EncodeAll, Step, Obey, SyncEncode, SyncDecode, Flatten, DataWrites, InSync,
      ToLe, FromLe, Okays, Fuel, PiecesOut;
    var pieces := file.pieces;
    ghost var was, ms, whole := t.sent, ReadAll(t.incoming).0, t.guest == Scripted([]);
    ghost var honest := t.guest == Honest(g) && g.phase.Receiving? && t.incoming == [];
    progress := [];
    var bytesSent: nat := 0;
    NoPieces(s, pieces);
    NothingOut(t, s, pieces, g);
    var i := 0;
    while i < |pieces|
      invariant 0 <= i <= |pieces| && |progress| == i
      invariant bytesSent == |Flatten(pieces[..i])|
      invariant forall k :: 0 <= k < i ==> progress[k] == (|Flatten(pieces[..k + 1])|, file.size)
      invariant PiecesOut(t, was, s, pieces, i, whole, ms, honest, g)
    {
      var n := |pieces[i]|;
      NextPiece(s, pieces, i);
      var sentData := SendPiece(s, t, pieces, i, was, whole, ms, honest, g);
      if sentData.Failure? {
        return sentData, progress;
      }
      bytesSent := bytesSent + n;
      progress := progress + [(bytesSent, file.size)];
      i := i + 1;
    }
    assert pieces[..i] == pieces;
    AllOut(t, was, s, pieces, whole, ms, honest, g);
    if file.readFails {
      return Failure(Io), progress;
    }
    return Success(()), progress;
  }

  lemma NothingOut(t: Transport, s: Session, pieces: seq<seq<byte>>, g: SyncGuest)
    ensures PiecesOut(t, t.sent, s, pieces, 0, t.guest == Scripted([]), ReadAll(t.incoming).0,
                      t.guest == Honest(g) && g.phase.Receiving? && t.incoming == [], g)
  {
    hide ReadAll, Flatten, DataWrites;
    NoPieces(s, pieces);
    var all := ReadAll(t.incoming).0;
    assert all[0..] == all;
  }

  lemma AllOut(t: Transport, was: seq<Message>, s: Session, pieces: seq<seq<byte>>, whole: bool, ms: seq<Message>,
               honest: bool, g: SyncGuest)
    requires PiecesOut(t, was, s, pieces, |pieces|, whole, ms, honest, g)
    ensures t.sent == was + DataWrites(s, pieces)
    ensures whole ==> Okays(ms, |pieces|) && Arrived(t, ms[|pieces|..])
    ensures honest ==>
      t.incoming == [] && t.guest == Honest(g.(phase := g.phase.(content := g.phase.content + Flatten(pieces))))
  {
    assert pieces[..|pieces|] == pieces;
  }

  lemma NoPieces(s: Session, pieces: seq<seq<byte>>)
    ensures pieces[..0] == [] && Flatten(pieces[..0]) == [] && DataWrites(s, pieces[..0]) == []
    ensures forall b: seq<byte> :: b + Flatten(pieces[..0]) == b
    ensures forall ms: seq<Message> :: ms + DataWrites(s, pieces[..0]) == ms
  {
  }

  lemma NextPiece(s: Session, pieces: seq<seq<byte>>, i: nat)
    requires i < |pieces|
    ensures Flatten(pieces[..i + 1]) == Flatten(pieces[..i]) + pieces[i]
    ensures DataWrites(s, pieces[..i + 1]) == DataWrites(s, pieces[..i]) + [InSync(s, SYNC_DATA, pieces[i])]
  {
    hide InSync;
    assert pieces[..i + 1] == pieces[..i] + [pieces[i]];
    FlattenSnoc(pieces[..i], pieces[i]);
  }

  lemma DataStep(g: SyncGuest, s: Session, data: seq<byte>)
    requires g.phase.Receiving? && |data| <= SYNC_DATA_MAX
    ensures Step(g, InSync(s, SYNC_DATA, data))
         == (g.(phase := g.phase.(content := g.phase.content + data)), [Okay(g.id, g.phase.host)])
    ensures |SyncEncode(SyncMessage(SYNC_DATA, data))| < TWO_32
  {
    CommandStep(g, s, SYNC_DATA, data);
  }

  lemma DoneStep(g: SyncGuest, s: Session, mtime: u32)
    requires g.phase.Receiving?
    ensures var host := g.phase.host;
            var ack := Okay(g.id, host);
            Step(g, InSync(s, SYNC_DONE, ToLe(mtime)))
            == if g.phase.path in g.denied then
                 (g.(phase := Sending(host, [])), [ack, Say(g, host, SyncMessage(SYNC_FAIL, REASON))])
               else
                 (Kept(g, Some(mtime)).(phase := Sending(host, [])),
                  [ack, Say(g, host, SyncMessage(SYNC_OKAY, []))])
    ensures |SyncEncode(SyncMessage(SYNC_DONE, ToLe(mtime)))| < TWO_32
    ensures Framable([Say(g, g.phase.host, SyncMessage(SYNC_FAIL, REASON))])
    ensures Framable([Say(g, g.phase.host, SyncMessage(SYNC_OKAY, []))])
  {
    hide SyncEncode;
    CommandStep(g, s, SYNC_DONE, ToLe(mtime));
    LeRoundTrip(mtime);
    SyncFields(SyncMessage(SYNC_FAIL, REASON), []);
    SyncFields(SyncMessage(SYNC_OKAY, []), []);
    assert forall m :: SyncEncode(m) + [] == SyncEncode(m);
  }

  lemma AckStep(g: SyncGuest, s: Session)
    requires g.phase.Sending?
    ensures Step(g, Okay(s.localId, s.remoteId))
         == if g.phase.queue == [] then (g.(phase := Idle(g.phase.host)), [])
            else (g.(phase := g.phase.(queue := g.phase.queue[1..])), [Say(g, g.phase.host, g.phase.queue[0])])
  {
  }

  /** The first four bytes of a sync message are its command, the rest follows the length word. */
  lemma SyncParts(m: SyncMessage)
    ensures var b := SyncEncode(m);
            |b| == 8 + |m.data| && b[0..4] == m.command && b[8..] == m.data
            && FromLe(b[4..8]) == |m.data| % TWO_32
  {
    SyncFields(m, []);
    assert SyncEncode(m) + [] == SyncEncode(m);
    assert m.data + [] == m.data;
  }

  /** An answer that announces a reason but ends before the place where the reason is read. */
  predicate CutShort(answer: seq<byte>) {
    4 <= |answer| < 8 && answer[..4] == SYNC_FAIL
  }

  /** An answer too short to hold a tag passes for success. */
  predicate TakenForSuccess(answer: seq<byte>) {
    |answer| < 4 || answer[..4] == SYNC_OKAY
  }

  /** What a push reports and does to its stream, by the answer it read. */
  ghost predicate Concludes(answer: Option<seq<byte>>, r: Result<(), AdbError>, streams: seq<StreamState>,
                            before: seq<StreamState>, id: u32) {
    && (r == Failure(SlicePanic) <==> answer.Some? && CutShort(answer.value))
    && (r.Success? <==> answer.Some? && TakenForSuccess(answer.value))
    && (answer.Some? && !CutShort(answer.value) && !TakenForSuccess(answer.value) ==> r == Failure(SyncError))
    && (if answer.Some? && !CutShort(answer.value) then streams == before else Registered(streams, before, id))
  }

  lemma Unanswered(error: AdbError, streams: seq<StreamState>, before: seq<StreamState>, id: u32)
    requires error != SlicePanic && Registered(streams, before, id)
    ensures Concludes(None, Failure(error), streams, before, id)
  {
  }

  /** The guest once it has given its verdict on what it received. */
  function Stored(g: SyncGuest, mtime: u32): SyncGuest
    requires g.phase.Receiving?
  {
    if g.phase.path in g.denied then g else Kept(g, Some(mtime))
  }

  /** DONE, and the guest's verdict on the file. */
  method AwaitVerdict(s: Session, t: Transport, mtime: u32, ghost g: SyncGuest) returns (r: Result<seq<byte>, AdbError>)
    modifies t`incoming, t`guest, t`sent, t`received
    ensures r.Success? ==>
      && t.sent == old(t.sent) + [InSync(s, SYNC_DONE, ToLe(mtime)), Okay(s.localId, s.remoteId)]
      && LastHeardIs(t.received, r.value)
    ensures r.Failure? ==> r.error != SlicePanic && |t.sent| <= |old(t.sent)| + 1
    ensures old(t.guest) == Scripted([]) ==>
      AnswerAfter(ReadAll(old(t.incoming)).0, 1) == (if r.Success? then Some(r.value) else None)
    ensures old(t.guest) == Honest(g) && g.phase.Receiving? && old(t.incoming) == [] ==>
      && r.Success? && |r.value| >= 8
      && r.value[0..4] == (if g.phase.path in g.denied then SYNC_FAIL else SYNC_OKAY)
      && t.guest == Honest(Stored(g, mtime).(phase := Idle(g.phase.host))) && t.incoming == []
  {
    hide Encode, React, ReadFrame, ReadAll, EncodeAll, Step, Obey, SyncEncode, SyncDecode, ToLe, FromLe, Okays,
      AnswerAfter, Fuel;
    ghost var honest := t.guest == Honest(g) && g.phase.Receiving? && t.incoming == [];
    ghost var done := InSync(s, SYNC_DONE, ToLe(mtime));
    ghost var ms := ReadAll(t.incoming).0;
    ghost var g1, told := g, Okay(0, 0);
    if honest {
      DoneStep(g, s, mtime);
      EncodeNothing([]);
      g1 := Step(g, done).0;
      told := Step(g, done).1[1];
      TwoAnswers(Okay(g.id, g.phase.host), told);
      AckStep(g1, s);
      SyncParts(SyncMessage(SYNC_FAIL, REASON));
      SyncParts(SyncMessage(SYNC_OKAY, []));
    }
    OkaysThen(ms, 1, 0);
    var sentDone := SendSyncData(s, t, SyncEncode(SyncMessage(SYNC_DONE, ToLe(mtime))), g, []);
    if sentDone.Failure? {
      return Failure(sentDone.error);
    }
    Assoc(old(t.sent), [done], [Okay(s.localId, s.remoteId)]);
    assert [done] + [Okay(s.localId, s.remoteId)] == [done, Okay(s.localId, s.remoteId)];
    r := RecvSyncData(s, t, g1, [told]);
  }

  /** DONE, the guest's verdict, and the end of the session, which a verdict cut short never reaches. */
  method FinishPush(s: Session, t: Transport, streams: StreamManager, ghost before: seq<StreamState>,
                    mtime: u32, ghost g: SyncGuest)
    returns (r: Result<(), AdbError>, ghost answer: Option<seq<byte>>)
    requires streams.Valid() && Registered(streams.streams, before, s.localId)
    modifies t`incoming, t`guest, t`sent, t`received, streams`streams
    ensures streams.Valid()
    // The answer is the data of the WRTE that was read and acknowledged after DONE.
    ensures answer.Some? <==> old(t.sent) + [InSync(s, SYNC_DONE, ToLe(mtime)), Okay(s.localId, s.remoteId)] <= t.sent
    ensures answer.Some? ==> LastHeardIs(t.received, answer.value)
    ensures answer.None? ==> |t.sent| <= |old(t.sent)| + 1
    ensures old(t.guest) == Scripted([]) ==> answer == AnswerAfter(ReadAll(old(t.incoming)).0, 1)
    ensures Concludes(answer, r, streams.streams, before, s.localId)
    ensures old(t.guest) == Honest(g) && g.phase.Receiving? && old(t.incoming) == [] ==>
      && t.guest == Honest(Stored(g, mtime).(phase := Closed))
      && t.incoming == EncodeAll(Leftover(g, g.phase.host))
      && r == (if g.phase.path in g.denied then Failure(SyncError) else Success(()))
      && streams.streams == before
  {
    hide Encode, EncodeAll, InSync, Registered, ToLe, ReadAll, AnswerAfter, Leftover, DistinctIds;
    ghost var honest := t.guest == Honest(g) && g.phase.Receiving? && t.incoming == [];
    var verdict := AwaitVerdict(s, t, mtime, g);
    if verdict.Failure? {
      return Failure(verdict.error), None;
    }
    var data := verdict.value;
    answer := Some(data);
    ghost var g2 := if honest then Stored(g, mtime).(phase := Idle(g.phase.host)) else g;
    EncodeNothing([]);
    EmptyQueue(Leftover(g2, if honest then g.phase.host else 0));
    LeftoverOf(g2, g, if honest then g.phase.host else 0);
    if |data| >= 4 {
      var command := data[0..4];
      if command == SYNC_FAIL {
        if |data| < 8 {
          return Failure(SlicePanic), answer;
        }
        CloseSession(s, t, streams, before, g2, []);
        return Failure(SyncError), answer;
      }
      if command != SYNC_OKAY {
        CloseSession(s, t, streams, before, g2, []);
        return Failure(SyncError), answer;
      }
    }
    CloseSession(s, t, streams, before, g2, []);
    return Success(()), answer;
  }

  /** The last message received is a WRTE with this data. */
  ghost predicate LastHeardIs(received: seq<Message>, data: seq<byte>) {
    received != [] && received[|received| - 1].command == CMD_WRTE && received[|received| - 1].data == data
  }

  lemma TwoAnswers(a: Message, b: Message)
    ensures [] + [a, b] == [a, b] && [a, b][1..] == [b] && [b][1..] + [] == []
  {
  }

  lemma EmptyQueue(ms: seq<Message>)
    ensures [] + ms == ms
  {
  }

  /** Open the session and announce the file. */
  method BeginPush(t: Transport, streams: StreamManager, path: Path, permissions: u32, ghost g: SyncGuest)
    returns (r: Result<Session, AdbError>)
    requires streams.Valid() && streams.nextLocalId < 0xFFFF_FFFF
    modifies t`incoming, t`guest, t`sent, t`received, streams
    ensures streams.Valid() && streams.nextLocalId == old(streams.nextLocalId) + 1
    ensures Registered(streams.streams, old(streams.streams), old(streams.nextLocalId))
    ensures r.Success? ==>
      && r.value.localId == old(streams.nextLocalId)
      && t.sent == old(t.sent) + [Open(r.value.localId, SYNC_SERVICE)]
                   + [InSync(r.value, SYNC_SEND, SendArgument(path, permissions))]
    ensures r.Failure? ==> r.error != SlicePanic && |t.sent| <= |old(t.sent)| + 2
    ensures old(t.guest) == Scripted([]) ==>
      var ms := ReadAll(old(t.incoming)).0;
      && (r.Success? <==> Okays(ms, 2))
      && (r.Success? ==> Arrived(t, ms[2..]))
    ensures
      old(t.guest) == Honest(g) && g.phase.Closed? && old(t.incoming) == []
      && |SendArgument(path, permissions)| < TWO_32 - 8
      ==> r.Success? && t.incoming == [] && t.guest == Honest(g.(phase := Receiving(r.value.localId, path, Some(permissions), [])))
  {
    hide Encode, React, ReadFrame, ReadAll, EncodeAll, Step, Obey, SyncEncode, Registered, SyncDecode, Octal,
      BeforeLastComma, AfterLastComma, ReadOctal, SendArgument, DistinctIds, Fuel, ToLe, FromLe, Okays;
    ghost var honest := t.guest == Honest(g) && g.phase.Closed? && t.incoming == []
                        && |SendArgument(path, permissions)| < TWO_32 - 8;
    EncodeNothing([]);
    OnlyAnswer(Okay(g.id, streams.nextLocalId));
    ghost var ms := ReadAll(t.incoming).0;
    OkaysThen(ms, 1, 1);
    assert |ms| >= 2 ==> ms[1..][1..] == ms[2..];
    var opening := OpenSession(t, streams, g, []);
    if opening.Failure? {
      return Failure(opening.error);
    }
    var s := opening.value;
    ghost var g1 := if honest then g.(phase := Idle(s.localId)) else g;
    if honest {
      SendStep(g1, s, path, permissions);
    }
    var header := SyncMessage(SYNC_SEND, SendArgument(path, permissions));
    var sentHeader := SendSyncData(s, t, SyncEncode(header), g1, []);
    if sentHeader.Failure? {
      return Failure(sentHeader.error);
    }
    return Success(s);
  }

  /** The guest with a file of this content, mode and time at the path. */
  function Holding(g: SyncGuest, path: Path, content: seq<byte>, mode: u32, mtime: u32): SyncGuest {
    g.(files := g.files[path := content], attributes := g.attributes[path := Attributes(Some(mode), Some(mtime))])
  }

  /** Pushing the file of a host whose guest is at rest stores it, whatever pieces `read` returned. */
  method PushFile(t: Transport, streams: StreamManager, file: HostFile, path: Path, permissions: u32, mtime: u32,
                  ghost g: SyncGuest)
    returns (r: Result<(), AdbError>, progress: seq<(nat, nat)>, ghost s: Session, ghost answer: Option<seq<byte>>)
    requires streams.Valid() && streams.nextLocalId < 0xFFFF_FFFF
    requires file.HostFile? ==> GoodPieces(file.pieces)
    modifies t`incoming, t`guest, t`sent, t`received, streams
    ensures streams.Valid()
    ensures file.Missing? ==> r == Failure(FileNotFound) && t.sent == old(t.sent) && streams.streams == old(streams.streams)
    // Against any guest: an answer is read exactly if the whole file went out, in order, and the answer decides the
    // result and whether the stream is gone again.
    ensures file.HostFile? ==>
      && streams.nextLocalId == old(streams.nextLocalId) + 1
      && (answer.Some? <==> old(t.sent) + PushTrace(s, path, permissions, file.pieces, mtime) <= t.sent)
      && (answer.Some? ==> LastHeardIs(t.received, answer.value) && s.localId == old(streams.nextLocalId))
      && (answer.Some? ==> !file.readFails && |progress| == |file.pieces|)
      && Concludes(answer, r, streams.streams, old(streams.streams), old(streams.nextLocalId))
    // If the guest's whole side has arrived, the answer is the WRTE behind an OKAY for OPEN, SEND, each DATA and DONE.
    ensures old(t.guest) == Scripted([]) && file.HostFile? ==>
      answer == if file.readFails then None else AnswerAfter(ReadAll(old(t.incoming)).0, |file.pieces| + 3)
    ensures file.HostFile? ==>
      && |progress| <= |file.pieces|
      && forall i :: 0 <= i < |progress| ==> progress[i] == (|Flatten(file.pieces[..i + 1])|, file.size)
    // Against the sync guest at rest with an empty channel: it succeeds unless the path is refused.
    ensures
      old(t.guest) == Honest(g) && g.phase.Closed? && old(t.incoming) == []
      && file.HostFile? && !file.readFails && |SendArgument(path, permissions)| < TWO_32 - 8
      ==>
        && t.incoming == EncodeAll(Leftover(g, old(streams.nextLocalId)))
        && streams.streams == old(streams.streams) && streams.nextLocalId == old(streams.nextLocalId) + 1
        && (if path in g.denied then r == Failure(SyncError) && t.guest == Honest(g)
            else r.Success? && t.guest == Honest(Holding(g, path, Flatten(file.pieces), permissions, mtime)))
  {
    hide Encode, EncodeAll, SyncEncode, Registered, DataWrites, SendArgument, InSync, PushTrace, DistinctIds,
      Leftover, ToLe, FromLe, Okays, ReadAll, AnswerAfter, Concludes, React, ReadFrame, Step, Obey, SyncDecode, Fuel,
      LastHeardIs, GoodPieces, Flatten;
    progress, s, answer := [], Session(0, 0), None;
    if file.Missing? {
      return Failure(FileNotFound), progress, s, answer;
    }
    ghost var ms := ReadAll(t.incoming).0;
    PushOkays(ms, |file.pieces|);
    ghost var before := streams.streams;
    ghost var honest := t.guest == Honest(g) && g.phase.Closed? && t.incoming == [] && !file.readFails
                        && |SendArgument(path, permissions)| < TWO_32 - 8;
    var opening := BeginPush(t, streams, path, permissions, g);
    if opening.Failure? {
      Unanswered(opening.error, streams.streams, before, old(streams.nextLocalId));
      return Failure(opening.error), progress, s, answer;
    }
    var session := opening.value;
    s := session;
    TraceJoins(old(t.sent), session, path, permissions, file.pieces, mtime);
    ghost var g2 := if honest then g.(phase := Receiving(session.localId, path, Some(permissions), [])) else g;
    var sentData;
    sentData, progress := SendPieces(session, t, file, g2);
    if sentData.Failure? {
      Unanswered(sentData.error, streams.streams, before, old(streams.nextLocalId));
      return sentData, progress, s, answer;
    }
    ghost var content := Flatten(file.pieces);
    assert [] + content == content;
    ghost var g3 := if honest then g.(phase := Receiving(session.localId, path, Some(permissions), content)) else g;
    assert honest ==> Leftover(g3, session.localId) == Leftover(g, session.localId) by {
      LeftoverOf(g3, g, session.localId);
    }
    r, answer := FinishPush(session, t, streams, before, mtime, g3);
  }

  /** The guest's side of the push of an empty file: OPEN, SEND and DONE are acknowledged, then comes an answer. */
  function Scene(answer: seq<byte>): seq<Message> {
    [Okay(7, 1), Okay(7, 1), Okay(7, 1), Wrte(7, 1, answer)]
  }

  lemma SceneReads(answer: seq<byte>, nothing: seq<byte>)
    requires |answer| < TWO_32 && nothing == []
    ensures ReadAll(EncodeAll(Scene(answer)) + nothing).0 == Scene(answer)
    ensures AnswerAfter(Scene(answer), 3) == Some(answer)
  {
    hide Encode, ReadAll, EncodeAll;
    ReadAllOfEncodeAll(Scene(answer), nothing);
  }

  /** Pushing an empty file to a guest that gives this answer. */
  method PushEmpty(path: Path, answer: seq<byte>) returns (r: Result<(), AdbError>, streams: StreamManager)
    requires |answer| < TWO_32
    ensures r == Failure(SlicePanic) <==> CutShort(answer)
    ensures r.Success? <==> TakenForSuccess(answer)
    ensures |streams.streams| == (if CutShort(answer) then 1 else 0)
  {
    hide Encode, EncodeAll, ReadAll, PushTrace, Scene, Okays, AnswerAfter, LastHeardIs;
    ghost var nothing: seq<byte> := [];
    SceneReads(answer, nothing);
    assert EncodeAll(Scene(answer)) + nothing == EncodeAll(Scene(answer));
    var t := new Transport(Scripted([]), EncodeAll(Scene(answer)), false);
    streams := new StreamManager();
    var file := HostFile(0, [], false);
    ghost var g := SyncGuest(0, map[], map[], {}, content => [content], false, Closed);
    var progress;
    ghost var s, heard;
    r, progress, s, heard := PushFile(t, streams, file, path, 0, 0, g);
  }

  /** A bare FAIL of four bytes: the slice panics and the stream stays in the table. */
  method BareFail(path: Path) returns (r: Result<(), AdbError>, streams: StreamManager)
    ensures r == Failure(SlicePanic) && |streams.streams| == 1
  {
    r, streams := PushEmpty(path, SYNC_FAIL);
  }

  /** An empty WRTE: the push counts as a success. */
  method EmptyAnswer(path: Path) returns (r: Result<(), AdbError>, streams: StreamManager)
    ensures r.Success? && |streams.streams| == 0
  {
    r, streams := PushEmpty(path, []);
  }

  lemma LeftoverOf(a: SyncGuest, b: SyncGuest, host: u32)
    ensures a.id == b.id && a.acksQuit == b.acksQuit ==> Leftover(a, host) == Leftover(b, host)
  {
  }

  lemma TraceJoins(base: seq<Message>, s: Session, path: Path, permissions: u32, pieces: seq<seq<byte>>, mtime: u32)
    ensures base + [Open(s.localId, SYNC_SERVICE)] + [InSync(s, SYNC_SEND, SendArgument(path, permissions))]
            + DataWrites(s, pieces) + [InSync(s, SYNC_DONE, ToLe(mtime)), Okay(s.localId, s.remoteId)]
         == base + PushTrace(s, path, permissions, pieces, mtime)
  {
    hide DataWrites, InSync, SendArgument;
    var a, b, d := Open(s.localId, SYNC_SERVICE), InSync(s, SYNC_SEND, SendArgument(path, permissions)), DataWrites(s, pieces);
    var e := [InSync(s, SYNC_DONE, ToLe(mtime)), Okay(s.localId, s.remoteId)];
    assert [a] + [b] == [a, b];
    assert base + [a] + [b] == base + [a, b];
    Assoc(base, [a, b], d);
    Assoc(base, [a, b] + d, e);
  }

  lemma SendStep(g: SyncGuest, s: Session, path: Path, permissions: u32)
    requires g.phase.Idle? && |SendArgument(path, permissions)| < TWO_32 - 8
    ensures Step(g, InSync(s, SYNC_SEND, SendArgument(path, permissions)))
         == (g.(phase := Receiving(g.phase.host, path, Some(permissions), [])), [Okay(g.id, g.phase.host)])
    ensures |SyncEncode(SyncMessage(SYNC_SEND, SendArgument(path, permissions)))| < TWO_32
  {
    CommandStep(g, s, SYNC_SEND, SendArgument(path, permissions));
    OctalHasNoComma(permissions);
    OctalReadsBack(permissions);
    PathBeforeMode(path, Octal(permissions));
  }

  // ----- pull -----

  const UNKNOWN_ERROR: seq<byte> := [0x75, 0x6E, 0x6B, 0x6E, 0x6F, 0x77, 0x6E]

  /** The file bytes a DATA message carries: its stated length, but no more than is there. */
  function DataOf(chunk: seq<byte>): (r: seq<byte>) {
    if |chunk| < 8 then []
    else
      var stated := FromLe(chunk[4..8]);
      var n := if stated <= |chunk| - 8 then stated else |chunk| - 8;
      chunk[8..8 + n]
  }

  /** A whole DATA message carries exactly its data, whatever follows it. */
  lemma DataDelivered(data: seq<byte>, rest: seq<byte>)
    requires |data| < TWO_32
    ensures DataOf(SyncEncode(SyncMessage(SYNC_DATA, data)) + rest) == data
  {
    hide FromLe, SyncEncode;
    SyncFields(SyncMessage(SYNC_DATA, data), rest);
  }

  /** One cut short carries what is there. */
  lemma DataCutShort(data: seq<byte>, n: nat)
    requires |data| < TWO_32 && n <= |data|
    ensures DataOf(SyncEncode(SyncMessage(SYNC_DATA, data))[..8 + n]) == data[..n]
  {
    hide FromLe, SyncEncode;
    SyncParts(SyncMessage(SYNC_DATA, data));
    var whole := SyncEncode(SyncMessage(SYNC_DATA, data));
    var chunk := whole[..8 + n];
    assert chunk[4..8] == whole[4..8] && chunk[8..] == data[..n];
    assert DataOf(chunk) == chunk[8..8 + n];
  }

  predicate Tagged(chunk: seq<byte>, tag: Tag) {
    |chunk| >= 4 && chunk[0..4] == tag
  }

  /** The DATA payloads among received messages, one after the other. */
  function Payload(body: seq<Message>): (r: seq<byte>) {
    if body == [] then []
    else
      var last := body[|body| - 1];
      Payload(body[..|body| - 1]) + if Tagged(last.data, SYNC_DATA) then DataOf(last.data) else []
  }

  lemma PayloadSnoc(body: seq<Message>, m: Message)
    ensures Payload(body + [m]) == Payload(body) + if Tagged(m.data, SYNC_DATA) then DataOf(m.data) else []
  {
    assert (body + [m])[..|body|] == body;
  }

  lemma SayParts(g: SyncGuest, host: u32, m: SyncMessage)
    requires |m.data| < TWO_32 - 8
    ensures var chunk := Say(g, host, m).data;
            && |chunk| < TWO_32 && Tagged(chunk, m.command) && |chunk| >= 8
            && chunk[8..] == m.data && DataOf(chunk) == m.data
    ensures Say(g, host, m).command == CMD_WRTE
  {
    hide FromLe, SyncEncode;
    SyncParts(m);
  }

  ghost predicate Sendable(out: seq<SyncMessage>) {
    forall i :: 0 <= i < |out| ==> |out[i].data| < TWO_32 - 8
  }

  /** The guest has just said out[i] and has the rest still to say. */
  ghost predicate Midway(t: Transport, g: SyncGuest, host: u32, out: seq<SyncMessage>, i: nat)
    reads t`guest, t`incoming
    requires i < |out|
  {
    && t.guest == Honest(g.(phase := Sending(host, out[i + 1..])))
    && t.incoming == EncodeAll([Say(g, host, out[i])])
  }

  /** The guest has said everything and been heard. */
  ghost predicate AtRest(t: Transport, g: SyncGuest, host: u32)
    reads t`guest, t`incoming
  {
    t.guest == Honest(g.(phase := Idle(host))) && t.incoming == []
  }

  /** Receiving one chunk moves the guest on by one message. */
  method NextChunk(s: Session, t: Transport, ghost g: SyncGuest, ghost host: u32, ghost out: seq<SyncMessage>, ghost i: nat)
    returns (r: Result<seq<byte>, AdbError>)
    modifies t`incoming, t`guest, t`sent, t`received
    ensures r.Success? ==>
      && |t.received| == |old(t.received)| + 1 && old(t.received) <= t.received
      && t.received[|old(t.received)|].command == CMD_WRTE
      && t.received[|old(t.received)|].data == r.value
    ensures i < |out| && Sendable(out) && old(Midway(t, g, host, out, i)) ==>
      && r == Success(Say(g, host, out[i]).data)
      && (if i + 1 < |out| then Midway(t, g, host, out, i + 1) else AtRest(t, g, host))
    ensures Misread(old(t.incoming)) ==> r == Failure(SyncError)
    ensures Fuel(t.guest) < Fuel(old(t.guest))
         || (Fuel(t.guest) == Fuel(old(t.guest)) && (r.Success? ==> |t.incoming| < |old(t.incoming)|))
  {
    hide Encode, React, ReadFrame, ReadAll, EncodeAll, Step, Obey, SyncEncode, SyncDecode, Fuel, ToLe, FromLe;
    ghost var midway := i < |out| && Sendable(out) && Midway(t, g, host, out, i);
    ghost var now, pending := g, [];
    if midway {
      now := g.(phase := Sending(host, out[i + 1..]));
      pending := [Say(g, host, out[i])];
      AckStep(now, s);
      SayParts(g, host, out[i]);
      EncodeNothing([]);
      NothingElse(pending[0], Step(now, Okay(s.localId, s.remoteId)).1);
      if i + 1 < |out| {
        assert out[i + 1..][1..] == out[i + 2..] && out[i + 1..][0] == out[i + 1];
      }
    }
    r := RecvSyncData(s, t, now, pending);
  }

  lemma NothingElse(m: Message, ms: seq<Message>)
    ensures [m][1..] + ms == ms
  {
  }

  function Datas(out: seq<SyncMessage>): (r: seq<seq<byte>>)
    ensures |r| == |out|
    ensures forall i :: 0 <= i < |r| ==> r[i] == out[i].data
  {
    seq(|out|, i requires 0 <= i < |out| => out[i].data)
  }

  /** DATA messages and then one DONE or FAIL. */
  ghost predicate Delivery(out: seq<SyncMessage>): (whole: bool)
    ensures whole ==> out != []
  {
    && out != [] && Sendable(out)
    && (forall i :: 0 <= i < |out| - 1 ==> out[i].command == SYNC_DATA)
    && out[|out| - 1].command in {SYNC_DONE, SYNC_FAIL}
  }

  lemma PartOfDelivery(out: seq<SyncMessage>, i: nat)
    requires Delivery(out) && i < |out|
    ensures Sendable(out) && |out[i].data| < TWO_32 - 8
    ensures if i + 1 < |out| then out[i].command == SYNC_DATA else out[i].command in {SYNC_DONE, SYNC_FAIL}
  {
  }

  function ReasonOf(data: seq<byte>): seq<byte> {
    if data == [] then UNKNOWN_ERROR else data
  }

  lemma DatasSnoc(out: seq<SyncMessage>, i: nat)
    requires i < |out|
    ensures Flatten(Datas(out[..i + 1])) == Flatten(Datas(out[..i])) + out[i].data
  {
    assert Datas(out[..i + 1]) == Datas(out[..i]) + [out[i].data];
    FlattenSnoc(Datas(out[..i]), out[i].data);
  }

  /** The receiving loop: DATA is written, DONE ends it, FAIL carries the guest's reason. */
  method PullPieces(s: Session, t: Transport, sink: Sink, ghost g: SyncGuest, ghost host: u32, ghost out: seq<SyncMessage>)
    returns (r: Result<(), AdbError>, written: seq<byte>, progress: seq<(nat, nat)>, ghost body: seq<Message>)
    modifies t`incoming, t`guest, t`sent, t`received
    ensures r.Success? ==>
      && t.received == old(t.received) + body && written == Payload(body)
      && body != [] && Tagged(body[|body| - 1].data, SYNC_DONE)
      && (forall i :: 0 <= i < |body| - 1 ==> Tagged(body[i].data, SYNC_DATA))
      && |progress| == |body| - 1 && (progress != [] ==> progress[|progress| - 1] == (|written|, 0))
    ensures Misread(old(t.incoming)) ==> r == Failure(SyncError) && written == []
    ensures Delivery(out) && old(Midway(t, g, host, out, 0)) && sink.failsAt.None? ==>
      && AtRest(t, g, host)
      && written == Flatten(Datas(out[..|out| - 1]))
      && (if out[|out| - 1].command == SYNC_DONE then r.Success?
          else r == Failure(GuestError(ReasonOf(out[|out| - 1].data))))
  {
    hide Encode, React, ReadFrame, ReadAll, EncodeAll, Step, Obey, SyncEncode, SyncDecode, Fuel, Payload,
      DataOf, Midway, AtRest, Datas, Flatten, Misread, ToLe, FromLe, Delivery, Sendable;
    ghost var delivery := Delivery(out) && Midway(t, g, host, out, 0) && sink.failsAt.None?;
    written, progress, body := [], [], [];
    NothingYet(out);
    ghost var i := 0;
    while true
      invariant i == |body| == |progress|
      invariant i == 0 ==> t.incoming == old(t.incoming) && written == []
      invariant i > 0 ==> !Misread(old(t.incoming))
      invariant t.received == old(t.received) + body && written == Payload(body)
      invariant forall k :: 0 <= k < |body| ==> Tagged(body[k].data, SYNC_DATA)
      invariant progress != [] ==> progress[|progress| - 1] == (|written|, 0)
      invariant delivery ==> i < |out| && Midway(t, g, host, out, i) && written == Flatten(Datas(out[..i]))
      decreases Fuel(t.guest), |t.incoming|
    {
      ghost var before := t.received;
      if delivery {
        PartOfDelivery(out, i);
      }
      var got := NextChunk(s, t, g, host, out, i);
      if got.Failure? {
        return Failure(got.error), written, progress, body;
      }
      var chunk := got.value;
      ghost var m := t.received[|before|];
      assert t.received == before + [m];
      Assoc(old(t.received), body, [m]);
      PayloadSnoc(body, m);
      body := body + [m];
      if delivery {
        SayParts(g, host, out[i]);
        DatasSnoc(out, i);
      }
      if |chunk| < 4 {
        return Failure(SyncError), written, progress, body;
      }
      var command := chunk[0..4];
      if command == SYNC_DATA {
        if |chunk| < 8 {
          return Failure(SyncError), written, progress, body;
        }
        var data := DataOf(chunk);
        if sink.failsAt == Some(|progress|) {
          return Failure(Io), written, progress, body;
        }
        written := written + data;
        progress := progress + [(|written|, 0)];
      } else if command == SYNC_DONE {
        return Success(()), written, progress, body;
      } else if command == SYNC_FAIL {
        var reason := if |chunk| > 8 then chunk[8..] else UNKNOWN_ERROR;
        return Failure(GuestError(reason)), written, progress, body;
      } else {
        return Failure(SyncError), written, progress, body;
      }
      i := i + 1;
    }
  }

  lemma NothingYet(out: seq<SyncMessage>)
    ensures Payload([]) == [] && Flatten(Datas(out[..0])) == []
  {
  }

  lemma OutgoingDelivers(g: SyncGuest, path: Path)
    requires GoodSplit(g.split)
    ensures var out := Outgoing(g, path);
            && Delivery(out)
            && (path in g.files ==>
                  out[|out| - 1].command == SYNC_DONE && Flatten(Datas(out[..|out| - 1])) == g.files[path])
            && (path !in g.files ==>
                  out[|out| - 1].command == SYNC_FAIL && out[|out| - 1].data == REASON && out[..|out| - 1] == [])
  {
    if path in g.files {
      var chunks := g.split(g.files[path]);
      var out := Outgoing(g, path);
      assert out[..|out| - 1] == DataMessages(chunks);
      assert Datas(DataMessages(chunks)) == chunks;
      forall i | 0 <= i < |out| - 1
        ensures |out[i].data| < TWO_32 - 8 && out[i].command == SYNC_DATA
      {
        assert chunks[i] in chunks;
      }
    }
  }

  lemma RecvStep(g: SyncGuest, s: Session, path: Path)
    requires g.phase.Idle? && |path| < TWO_32 - 8
    ensures var host, out := g.phase.host, Outgoing(g, path);
            Step(g, InSync(s, SYNC_RECV, path))
            == (g.(phase := Sending(host, out[1..])), [Okay(g.id, host), Say(g, host, out[0])])
    ensures |SyncEncode(SyncMessage(SYNC_RECV, path))| < TWO_32
  {
    CommandStep(g, s, SYNC_RECV, path);
  }

  lemma FramableAnswers(g: SyncGuest, host: u32, m: SyncMessage, pending: seq<Message>)
    requires |m.data| < TWO_32 - 8 && Framable(pending)
    ensures Framable(pending + [Okay(g.id, host), Say(g, host, m)])
  {
    hide SyncEncode, DataOf;
    SayParts(g, host, m);
  }

  /** Open the session and ask for the file. */
  method BeginPull(t: Transport, streams: StreamManager, path: Path, ghost g: SyncGuest, ghost pending: seq<Message>)
    returns (r: Result<Session, AdbError>)
    requires streams.Valid() && streams.nextLocalId < 0xFFFF_FFFF
    modifies t`incoming, t`guest, t`sent, t`received, streams
    ensures streams.Valid() && streams.nextLocalId == old(streams.nextLocalId) + 1
    ensures Registered(streams.streams, old(streams.streams), old(streams.nextLocalId))
    ensures r.Success? ==>
      && r.value.localId == old(streams.nextLocalId)
      && t.sent == old(t.sent) + [Open(r.value.localId, SYNC_SERVICE)] + [InSync(r.value, SYNC_RECV, path)]
    ensures
      old(t.guest) == Honest(g) && g.phase.Closed? && GoodSplit(g.split) && |path| < TWO_32 - 8
      && old(t.incoming) == EncodeAll(pending) && Framable(pending)
      ==>
        && (pending == [] ==> r.Success? && Midway(t, g, r.value.localId, Outgoing(g, path), 0))
        && (|pending| == 1 && pending[0].command == CMD_OKAY ==> r.Success? && Misread(t.incoming))
  {
    hide Encode, React, EncodeAll, Step, Obey, SyncEncode, SyncDecode, Fuel, DataOf, Registered, Outgoing,
      Delivery, DistinctIds, GoodSplit, ReadFrame, ReadAll, ToLe, FromLe;
    ghost var honest := t.guest == Honest(g) && g.phase.Closed? && GoodSplit(g.split) && |path| < TWO_32 - 8
                        && t.incoming == EncodeAll(pending) && Framable(pending)
                        && (pending == [] || (|pending| == 1 && pending[0].command == CMD_OKAY));
    ghost var host := streams.nextLocalId;
    ghost var queue := pending + [Okay(g.id, host)];
    var opening := OpenSession(t, streams, g, pending);
    assert honest ==> opening.Success?;
    if opening.Failure? {
      return Failure(opening.error);
    }
    var s := opening.value;
    ghost var g1 := if honest then g.(phase := Idle(host)) else g;
    ghost var out := Outgoing(g, path);
    if honest {
      OutgoingDelivers(g, path);
      FirstSendable(out);
      RecvStep(g1, s, path);
      SameOutgoing(g1, g, path);
      FramableAnswers(g, host, out[0], queue[1..]);
      PullQueue(g, host, out[0], pending);
    }
    var request := SyncMessage(SYNC_RECV, path);
    var asked := SendSyncData(s, t, SyncEncode(request), g1, queue[1..]);
    if asked.Failure? {
      return Failure(asked.error);
    }
    return Success(s);
  }

  lemma SameOutgoing(a: SyncGuest, b: SyncGuest, path: Path)
    ensures a.files == b.files && a.split == b.split ==> Outgoing(a, path) == Outgoing(b, path)
  {
  }

  lemma FirstSendable(out: seq<SyncMessage>)
    ensures Delivery(out) ==> out != [] && |out[0].data| < TWO_32 - 8
  {
  }

  /** What the host will read after asking: its answers in order, or one message late if something was left unread. */
  lemma PullQueue(g: SyncGuest, host: u32, first: SyncMessage, pending: seq<Message>)
    requires |first.data| < TWO_32 - 8
    ensures var ack, say := Okay(g.id, host), Say(g, host, first);
            && (pending == [] ==>
                  (pending + [ack])[1..] + [ack, say] == [ack, say] && [ack, say][1..] == [say])
            && (|pending| == 1 ==>
                  && (pending + [ack])[1..] + [ack, say] == [ack] + [ack, say]
                  && ([ack] + [ack, say])[1..] == [ack] + [say]
                  && Misread(EncodeAll([ack] + [say])))
  {
    hide Encode, EncodeAll, ReadFrame, SyncEncode, ToLe, FromLe;
    ReadFirst(Okay(g.id, host), [Say(g, host, first)]);
  }

  /**
   Pulling a file from a guest at rest with an empty channel writes exactly what the guest holds.
   One unread OKAY in the channel, left by an earlier session, is enough to make it fail.
   */
  method PullFile(t: Transport, streams: StreamManager, path: Path, sink: Sink, ghost g: SyncGuest, ghost pending: seq<Message>)
    returns (r: Result<(), AdbError>, written: seq<byte>, progress: seq<(nat, nat)>, ghost body: seq<Message>)
    requires streams.Valid() && streams.nextLocalId < 0xFFFF_FFFF
    modifies t`incoming, t`guest, t`sent, t`received, streams
    ensures streams.Valid()
    // Against any guest: success means every DATA payload received was written, and the stream is gone again.
    ensures r.Success? ==>
      && streams.streams == old(streams.streams) && streams.nextLocalId == old(streams.nextLocalId) + 1
      && |body| <= |t.received| && body == t.received[|t.received| - |body|..] && written == Payload(body)
      && body != [] && Tagged(body[|body| - 1].data, SYNC_DONE)
      && (progress != [] ==> progress[|progress| - 1] == (|written|, 0))
    ensures
      old(t.guest) == Honest(g) && g.phase.Closed? && GoodSplit(g.split) && |path| < TWO_32 - 8
      && old(t.incoming) == [] && pending == [] && sink == GOOD_SINK
      ==>
        && t.guest == Honest(g)
        && t.incoming == EncodeAll(Leftover(g, old(streams.nextLocalId)))
        && streams.streams == old(streams.streams)
        && (if path in g.files then r.Success? && written == g.files[path]
            else r == Failure(GuestError(REASON)) && written == [])
    ensures
      old(t.guest) == Honest(g) && g.phase.Closed? && GoodSplit(g.split) && |path| < TWO_32 - 8
      && old(t.incoming) == EncodeAll(pending) && |pending| == 1 && pending[0].command == CMD_OKAY && Framable(pending)
      && sink == GOOD_SINK
      ==> r == Failure(SyncError) && written == []
  {
    hide Encode, EncodeAll, SyncEncode, Payload, DataOf, Registered, Tagged, Midway, Datas, Misread, Leftover,
      Outgoing, DistinctIds, GoodSplit, Delivery, Framable, React, ReadFrame, ReadAll, Step, Obey, SyncDecode,
      Fuel, Flatten, ToLe, FromLe;
    written, progress, body := [], [], [];
    ghost var before := streams.streams;
    ghost var honest := t.guest == Honest(g) && g.phase.Closed? && GoodSplit(g.split) && |path| < TWO_32 - 8
                        && sink == GOOD_SINK;
    ghost var clean := honest && t.incoming == [] && pending == [];
    EncodeNothing([]);
    FramableNothing();
    var opening := BeginPull(t, streams, path, g, pending);
    if opening.Failure? {
      return Failure(opening.error), written, progress, body;
    }
    var s := opening.value;
    if !sink.creates {
      return Failure(Io), written, progress, body;
    }
    ghost var out := Outgoing(g, path);
    if honest {
      OutgoingDelivers(g, path);
    }
    r, written, progress, body := PullPieces(s, t, sink, g, s.localId, out);
    if r.Failure? && !r.error.GuestError? {
      return r, written, progress, body;
    }
    if r.Success? && !sink.flushes {
      return Failure(Io), written, progress, body;
    }
    ghost var g1 := if clean then g.(phase := Idle(s.localId)) else g;
    if clean {
      NoData(out);
      EmptyQueue(Leftover(g1, s.localId));
      LeftoverOf(g1, g, s.localId);
    }
    CloseSession(s, t, streams, before, g1, []);
  }

  lemma FramableNothing()
    ensures Framable([])
  {
  }

  lemma NoData(out: seq<SyncMessage>)
    ensures out != [] && out[..|out| - 1] == [] ==> Flatten(Datas(out[..|out| - 1])) == []
  {
  }

  /**
   Pushing a file and pulling it back over one connection gives the file exactly when nothing was left
   unread in between: when the guest does not acknowledge QUIT, or the channel is drained first.
   */
  method PushThenPull(t: Transport, streams: StreamManager, file: HostFile, path: Path, permissions: u32, mtime: u32,
                      drain: bool, ghost g: SyncGuest)
    returns (pushed: Result<(), AdbError>, pulled: Result<(), AdbError>, copy: seq<byte>)
    requires streams.Valid() && streams.nextLocalId < 0xFFFF_FFFE
    requires t.guest == Honest(g) && g.phase.Closed? && t.incoming == [] && GoodSplit(g.split)
    requires file.HostFile? && !file.readFails && GoodPieces(file.pieces)
    requires |SendArgument(path, permissions)| < TWO_32 - 8 && path !in g.denied
    modifies t, streams
    ensures pushed.Success?
    ensures pulled.Success? <==> drain || !g.acksQuit
    ensures pulled.Success? ==> copy == Flatten(file.pieces)
    ensures pulled.Failure? ==> pulled.error == SyncError && copy == []
  {
    ghost var host := streams.nextLocalId;
    var progress;
    ghost var s, body, answer;
    pushed, progress, s, answer := PushFile(t, streams, file, path, permissions, mtime, g);
    ghost var g1 := Holding(g, path, Flatten(file.pieces), permissions, mtime);
    ghost var pending := if drain then [] else Leftover(g, host);
    EncodeNothing([]);
    if drain {
      t.incoming := [];
    }
    assert |path| < TWO_32 - 8;
    pulled, copy, progress, body := PullFile(t, streams, path, GOOD_SINK, g1, pending);
  }
}
