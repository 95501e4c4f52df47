/**
 The guest's end of a `sync:` stream, written as the dual of the host code: it answers every
 OPEN and WRTE with OKAY, sends one sync message per WRTE and waits for its acknowledgement.
 How it cuts a file into DATA messages, which paths it refuses to write, and whether it
 acknowledges QUIT are left open.
 */
module AdbSyncGuest {
  import opened Wrappers
  import opened Bytes
  import opened AdbProtocol
  import opened AdbSyncCodec

  type Path = seq<byte>

  const COMMA: byte := 0x2C
  const SYNC_SERVICE: seq<byte> := [0x73, 0x79, 0x6E, 0x63, 0x3A]
  const REASON: seq<byte> := [0x6E, 0x6F]

  datatype Phase =
    | Closed
    | Idle(host: u32)
    | Receiving(host: u32, path: Path, mode: Option<nat>, content: seq<byte>)
    | Sending(host: u32, queue: seq<SyncMessage>)

  /** What a stored file was pushed with, as far as the guest could read it. */
  datatype Attributes = Attributes(mode: Option<nat>, mtime: Option<u32>)

  datatype SyncGuest = SyncGuest(
    id: u32,
    files: map<Path, seq<byte>>,
    attributes: map<Path, Attributes>,
    denied: set<Path>,
    split: seq<byte> -> seq<seq<byte>>,
    acksQuit: bool,
    phase: Phase)

  /** Cutting a file into DATA payloads loses nothing and keeps each message within a frame. */
  ghost predicate GoodSplit(split: seq<byte> -> seq<seq<byte>>) {
    forall content :: Flatten(split(content)) == content
                   && forall c :: c in split(content) ==> |c| < TWO_32 - 8
  }

  /** Everything before the last comma. */
  function BeforeLastComma(arg: seq<byte>): (p: seq<byte>) {
    if arg == [] then []
    else if arg[|arg| - 1] == COMMA then arg[..|arg| - 1]
    else BeforeLastComma(arg[..|arg| - 1])
  }

  /** Everything after the last comma, or all if there is none. */
  function AfterLastComma(arg: seq<byte>): (m: seq<byte>) {
    if arg == [] || arg[|arg| - 1] == COMMA then []
    else AfterLastComma(arg[..|arg| - 1]) + [arg[|arg| - 1]]
  }

  /** The number a sequence of octal digits stands for, most significant first. */
  function ReadOctal(digits: seq<byte>): (n: Option<nat>) {
    if digits == [] then None
    else
      var last := |digits| - 1;
      var d: int := digits[last];
      if !(0x30 <= d <= 0x37) then None
      else if last == 0 then Some(d - 0x30)
      else
        var high := ReadOctal(digits[..last]);
        if high.None? then None else Some(8 * high.value + (d - 0x30))
  }

  /** The time in four bytes, least significant first. */
  function ReadTime(data: seq<byte>): Option<u32> {
    if |data| == 4 then Some(FromLe(data)) else None
  }

  /** A path may contain commas; the mode after it does not. */
  lemma {:induction false} PathBeforeMode(path: Path, mode: seq<byte>)
    requires COMMA !in mode
    ensures BeforeLastComma(path + [COMMA] + mode) == path && AfterLastComma(path + [COMMA] + mode) == mode
  {
    var arg := path + [COMMA] + mode;
    if mode == [] {
      assert arg[..|arg| - 1] == path;
    } else {
      assert arg[|arg| - 1] == mode[|mode| - 1];
      assert arg[..|arg| - 1] == path + [COMMA] + mode[..|mode| - 1];
      PathBeforeMode(path, mode[..|mode| - 1]);
      assert mode == mode[..|mode| - 1] + [mode[|mode| - 1]];
    }
  }

  function DataMessages(chunks: seq<seq<byte>>): (r: seq<SyncMessage>)
    ensures |r| == |chunks|
    ensures forall i :: 0 <= i < |r| ==> r[i] == SyncMessage(SYNC_DATA, chunks[i])
  {
    seq(|chunks|, i requires 0 <= i < |chunks| => SyncMessage(SYNC_DATA, chunks[i]))
  }

  /** What the guest sends for a file: its DATA messages, then DONE. */
  function Outgoing(g: SyncGuest, path: Path): (r: seq<SyncMessage>)
    ensures r != []
  {
    if path in g.files then DataMessages(g.split(g.files[path])) + [SyncMessage(SYNC_DONE, [])]
    else [SyncMessage(SYNC_FAIL, REASON)]
  }

  function Say(g: SyncGuest, host: u32, s: SyncMessage): Message {
    Wrte(g.id, host, SyncEncode(s))
  }

  /** The file received so far, stored with its mode and time. */
  function Kept(g: SyncGuest, mtime: Option<u32>): SyncGuest
    requires g.phase.Receiving?
  {
    g.(files := g.files[g.phase.path := g.phase.content],
       attributes := g.attributes[g.phase.path := Attributes(g.phase.mode, mtime)])
  }

  /** One sync command, already unwrapped from its WRTE. */
  function Obey(g: SyncGuest, host: u32, s: SyncMessage): (SyncGuest, seq<Message>) {
    var ack := Okay(g.id, host);
    if s.command == SYNC_SEND && g.phase.Idle? then
      (g.(phase := Receiving(host, BeforeLastComma(s.data), ReadOctal(AfterLastComma(s.data)), [])), [ack])
    else if s.command == SYNC_DATA && g.phase.Receiving? then
      (g.(phase := g.phase.(content := g.phase.content + s.data)), [ack])
    else if s.command == SYNC_DONE && g.phase.Receiving? then
      if g.phase.path in g.denied then
        (g.(phase := Sending(host, [])), [ack, Say(g, host, SyncMessage(SYNC_FAIL, REASON))])
      else
        (Kept(g, ReadTime(s.data)).(phase := Sending(host, [])),
         [ack, Say(g, host, SyncMessage(SYNC_OKAY, []))])
    else if s.command == SYNC_RECV && g.phase.Idle? then
      var out := Outgoing(g, s.data);
      (g.(phase := Sending(host, out[1..])), [ack, Say(g, host, out[0])])
    else if s.command == SYNC_QUIT && g.phase.Idle? then
      (g, if g.acksQuit then [ack] else [])
    else
      (g, [Clse(g.id, host)])
  }

  function Step(g: SyncGuest, m: Message): (SyncGuest, seq<Message>) {
    if m.command == CMD_OPEN && g.phase.Closed? && m.data == SYNC_SERVICE + [0] then
      (g.(phase := Idle(m.arg0)), [Okay(g.id, m.arg0)])
    else if m.command == CMD_WRTE && !g.phase.Closed? then
      match SyncDecode(m.data)
      case Success(s) => Obey(g, g.phase.host, s)
      case Failure(_) => (g, [Clse(g.id, g.phase.host)])
    else if m.command == CMD_OKAY && g.phase.Sending? then
      if g.phase.queue == [] then (g.(phase := Idle(g.phase.host)), [])
      else (g.(phase := g.phase.(queue := g.phase.queue[1..])), [Say(g, g.phase.host, g.phase.queue[0])])
    else if m.command == CMD_CLSE then
      (g.(phase := Closed), [])
    else
      (g, [])
  }
}
