/** The sync sub-protocol's messages: a four-byte command, a length word, the data. */
module AdbSyncCodec {
  import opened Wrappers
  import opened Bytes
  import opened AdbProtocol

  const SYNC_SEND: seq<byte> := [0x53, 0x45, 0x4E, 0x44]
  const SYNC_RECV: seq<byte> := [0x52, 0x45, 0x43, 0x56]
  const SYNC_DATA: seq<byte> := [0x44, 0x41, 0x54, 0x41]
  const SYNC_DONE: seq<byte> := [0x44, 0x4F, 0x4E, 0x45]
  const SYNC_FAIL: seq<byte> := [0x46, 0x41, 0x49, 0x4C]
  const SYNC_OKAY: seq<byte> := [0x4F, 0x4B, 0x41, 0x59]
  const SYNC_QUIT: seq<byte> := [0x51, 0x55, 0x49, 0x54]

  const SYNC_DATA_MAX: nat := 64 * 1024

  type Tag = t: seq<byte> | |t| == 4 witness [0, 0, 0, 0]

  datatype SyncMessage = SyncMessage(command: Tag, data: seq<byte>)

  function SyncEncode(m: SyncMessage): (r: seq<byte>) {
    m.command + ToLe(|m.data| % TWO_32) + m.data
  }

  function SyncDecode(buf: seq<byte>): (r: Result<SyncMessage, AdbError>) {
    if |buf| < 8 then Failure(TooShort)
    else
      var dataLen := FromLe(buf[4..8]);
      if |buf| < 8 + dataLen then Failure(Incomplete)
      else Success(SyncMessage(buf[0..4], buf[8..8 + dataLen]))
  }

  lemma SyncFields(m: SyncMessage, rest: seq<byte>)
    ensures var buf := SyncEncode(m) + rest;
            && |buf| == 8 + |m.data| + |rest|
            && buf[0..4] == m.command
            && FromLe(buf[4..8]) == |m.data| % TWO_32
            && buf[8..8 + |m.data|] == m.data
            && buf[8..] == m.data + rest
  {
    hide ToLe, FromLe;
    var buf := SyncEncode(m) + rest;
    assert buf[0..4] == m.command;
    assert buf[4..8] == ToLe(|m.data| % TWO_32);
    LeRoundTrip(|m.data| % TWO_32);
  }

  /** What the sync decoder accepts, exactly. */
  lemma SyncDecodesExactly(buf: seq<byte>, m: SyncMessage)
    ensures SyncDecode(buf) == Success(m) <==> |m.data| < TWO_32 && SyncEncode(m) <= buf
  {
    hide ToLe, FromLe;
    if SyncDecode(buf) == Success(m) {
      DecodedSyncIsPrefix(buf, m);
    }
    if |m.data| < TWO_32 && SyncEncode(m) <= buf {
      var rest := buf[|SyncEncode(m)|..];
      assert SyncEncode(m) + rest == buf;
      SyncFields(m, rest);
    }
  }

  lemma DecodedSyncIsPrefix(buf: seq<byte>, m: SyncMessage)
    requires SyncDecode(buf) == Success(m)
    ensures |m.data| < TWO_32 && SyncEncode(m) <= buf
  {
    hide ToLe, FromLe;
    LeInverse(buf[4..8]);
    assert ToLe(|m.data| % TWO_32) == buf[4..8];
    assert buf[0..4] + buf[4..8] + buf[8..8 + |m.data|] == buf[..8 + |m.data|];
  }

  lemma SyncRoundTripIff(m: SyncMessage)
    ensures SyncDecode(SyncEncode(m)) == Success(m) <==> |m.data| < TWO_32
  {
    SyncDecodesExactly(SyncEncode(m), m);
  }
}
