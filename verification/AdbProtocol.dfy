/** ADB message framing and the table of logical streams. */
module AdbProtocol {
  import opened Wrappers
  import opened Bytes

  const MAX_PAYLOAD: u32 := 256 * 1024

  const CMD_OPEN: u32 := 0x4E45_504F
  const CMD_OKAY: u32 := 0x5941_4B4F
  const CMD_CLSE: u32 := 0x4553_4C43
  const CMD_WRTE: u32 := 0x4554_5257

  const HEADER_SIZE: nat := 24

  datatype AdbError =
    | TooShort
    | MagicMismatch
    | Incomplete
    | ChecksumMismatch
    | UnknownStream
    | UnexpectedCommand(command: u32)
    | UnexpectedEof
    | Io
    | Timeout
    | FileNotFound
    | SyncError
    | GuestError(reason: seq<byte>)
    | SlicePanic

  datatype Message = Message(command: u32, arg0: u32, arg1: u32, data: seq<byte>)

  function Open(localId: u32, destination: seq<byte>): Message {
    Message(CMD_OPEN, localId, 0, destination + [0])
  }

  function Okay(localId: u32, remoteId: u32): Message {
    Message(CMD_OKAY, localId, remoteId, [])
  }

  function Wrte(localId: u32, remoteId: u32, data: seq<byte>): Message {
    Message(CMD_WRTE, localId, remoteId, data)
  }

  function Clse(localId: u32, remoteId: u32): Message {
    Message(CMD_CLSE, localId, remoteId, [])
  }

  // ----- checksum and magic -----

  function ByteSum(data: seq<byte>): (n: nat) {
    if data == [] then 0 else data[0] + ByteSum(data[1..])
  }

  /** The sum wraps at 32 bits when overflow checks are off. */
  function Checksum(data: seq<byte>): u32 {
    ByteSum(data) % TWO_32
  }

  /** `command ^ 0xFFFF_FFFF`; `MagicIsXor` ties the subtraction to the bit operation. */
  function Magic(command: u32): u32 {
    0xFFFF_FFFF - command
  }

  lemma MagicIsXor(c: bv32)
    ensures c ^ 0xFFFF_FFFF == 0xFFFF_FFFF - c
  {
  }

  // ----- encoding -----

  const HEADER_WORDS: nat := 6

  function HeaderWords(m: Message): (ws: seq<u32>)
    ensures |ws| == HEADER_WORDS
  {
    [m.command, m.arg0, m.arg1, |m.data| % TWO_32, Checksum(m.data), Magic(m.command)]
  }

  function Encode(m: Message): (r: seq<byte>) {
    Words(HeaderWords(m)) + m.data
  }

  method ToBytes(m: Message) returns (buf: seq<byte>)
    ensures buf == Encode(m)
  {
    var dataLen := |m.data| % TWO_32;
    var checksum := Checksum(m.data);
    var magic := Magic(m.command);
    ghost var ws := HeaderWords(m);
    buf := [];
    buf := buf + ToLe(m.command);
    buf := buf + ToLe(m.arg0);
    buf := buf + ToLe(m.arg1);
    buf := buf + ToLe(dataLen);
    buf := buf + ToLe(checksum);
    buf := buf + ToLe(magic);
    assert buf == Words(ws) by {
      SixWords(ws);
    }
    buf := buf + m.data;
  }

  function FromBytes(buf: seq<byte>): (r: Result<Message, AdbError>)
    ensures r.Failure? ==> r.error in {TooShort, MagicMismatch, Incomplete, ChecksumMismatch}
  {
    if |buf| < HEADER_SIZE then Failure(TooShort)
    else
      var command := Word(buf, 0);
      var arg0 := Word(buf, 1);
      var arg1 := Word(buf, 2);
      var dataLen := Word(buf, 3);
      var checksum := Word(buf, 4);
      var magic := Word(buf, 5);
      if magic != Magic(command) then Failure(MagicMismatch)
      else if |buf| < HEADER_SIZE + dataLen then Failure(Incomplete)
      else
        var data := buf[HEADER_SIZE..HEADER_SIZE + dataLen];
        if Checksum(data) != checksum then Failure(ChecksumMismatch)
        else Success(Message(command, arg0, arg1, data))
  }

  // ----- codec theorems -----

  lemma SixWords(ws: seq<u32>)
    requires |ws| == 6
    ensures Words(ws) == ToLe(ws[0]) + ToLe(ws[1]) + ToLe(ws[2]) + ToLe(ws[3]) + ToLe(ws[4]) + ToLe(ws[5])
  {
    hide ToLe;
    assert Words(ws[5..]) == ToLe(ws[5]);
    assert ws[4..][1..] == ws[5..] && Words(ws[4..]) == ToLe(ws[4]) + Words(ws[5..]);
    assert ws[3..][1..] == ws[4..] && Words(ws[3..]) == ToLe(ws[3]) + Words(ws[4..]);
    assert ws[2..][1..] == ws[3..] && Words(ws[2..]) == ToLe(ws[2]) + Words(ws[3..]);
    assert ws[1..][1..] == ws[2..] && Words(ws[1..]) == ToLe(ws[1]) + Words(ws[2..]);
  }

  /** The six header words sit where the decoder looks for them, whatever follows. */
  lemma HeaderFields(m: Message, rest: seq<byte>)
    ensures var buf := Words(HeaderWords(m)) + rest;
            && Word(buf, 0) == m.command
            && Word(buf, 1) == m.arg0
            && Word(buf, 2) == m.arg1
            && Word(buf, 3) == |m.data| % TWO_32
            && Word(buf, 4) == Checksum(m.data)
            && Word(buf, 5) == Magic(m.command)
            && buf[HEADER_SIZE..] == rest
  {
    hide Words, Word;
    var ws := HeaderWords(m);
    WordPlaced(ws, rest, 0);
    WordPlaced(ws, rest, 1);
    WordPlaced(ws, rest, 2);
    WordPlaced(ws, rest, 3);
    WordPlaced(ws, rest, 4);
    WordPlaced(ws, rest, 5);
  }

  /** Decoding an encoded message, with anything after it. */
  lemma DecodeEncoded(m: Message, rest: seq<byte>)
    requires |m.data| < TWO_32
    ensures FromBytes(Encode(m) + rest) == Success(m)
  {
    hide Words, Word, Checksum;
    var buf := Encode(m) + rest;
    assert buf == Words(HeaderWords(m)) + (m.data + rest);
    HeaderFields(m, m.data + rest);
    assert buf[HEADER_SIZE..HEADER_SIZE + |m.data|] == m.data;
  }

  /** A buffer that decodes starts with the encoding of what it decodes to. */
  lemma DecodedIsPrefix(buf: seq<byte>, m: Message)
    requires FromBytes(buf) == Success(m)
    ensures |m.data| < TWO_32 && Encode(m) <= buf
  {
    hide Words, Word, Checksum;
    WordsInverse(buf, 6);
    assert HeaderWords(m) == WordsOf(buf, 6);
    assert Encode(m) == buf[..HEADER_SIZE + |m.data|];
  }

  /** What the decoder accepts, exactly: the buffers that begin with an encoding. */
  lemma DecodesExactly(buf: seq<byte>, m: Message)
    ensures FromBytes(buf) == Success(m) <==> |m.data| < TWO_32 && Encode(m) <= buf
  {
    if FromBytes(buf) == Success(m) {
      DecodedIsPrefix(buf, m);
    }
    if |m.data| < TWO_32 && Encode(m) <= buf {
      DecodeEncoded(m, buf[|Encode(m)|..]);
      assert Encode(m) + buf[|Encode(m)|..] == buf;
    }
  }

  /** The round trip holds for exactly the messages whose length fits the 32-bit length word. */
  lemma RoundTripIff(m: Message)
    ensures FromBytes(Encode(m)) == Success(m) <==> |m.data| < TWO_32
  {
    DecodesExactly(Encode(m), m);
  }

  /** No encoding is a proper prefix of another, so concatenated frames split in one way only. */
  lemma PrefixFree(a: Message, b: Message)
    requires |a.data| < TWO_32 && |b.data| < TWO_32
    requires Encode(a) <= Encode(b)
    ensures a == b
  {
    DecodesExactly(Encode(b), a);
    DecodesExactly(Encode(b), b);
  }

  predicate Framable(ms: seq<Message>) {
    forall i :: 0 <= i < |ms| ==> |ms[i].data| < TWO_32
  }

  function EncodeAll(ms: seq<Message>): seq<byte> {
    if ms == [] then [] else Encode(ms[0]) + EncodeAll(ms[1..])
  }

  lemma {:induction false} EncodeAllAppend(a: seq<Message>, b: seq<Message>)
    ensures EncodeAll(a + b) == EncodeAll(a) + EncodeAll(b)
  {
    hide Encode;
    if a == [] {
      assert a + b == b;
    } else {
      EncodeAllAppend(a[1..], b);
      assert (a + b)[1..] == a[1..] + b && (a + b)[0] == a[0];
      var x, y, z := Encode(a[0]), EncodeAll(a[1..]), EncodeAll(b);
      assert x + (y + z) == (x + y) + z;
    }
  }

  /** Two message sequences with the same bytes on the wire are the same sequence. */
  lemma {:induction false} UniquelyDecodable(a: seq<Message>, b: seq<Message>)
    requires Framable(a) && Framable(b)
    requires EncodeAll(a) == EncodeAll(b)
    ensures a == b
  {
    hide Words;
    if a == [] {
      assert b == [];
    } else if b == [] {
      assert false;
    } else {
      DecodeEncoded(a[0], EncodeAll(a[1..]));
      DecodeEncoded(b[0], EncodeAll(b[1..]));
      assert a[0] == b[0];
      var n := |Encode(a[0])|;
      assert EncodeAll(a)[n..] == EncodeAll(a[1..]);
      assert EncodeAll(b)[n..] == EncodeAll(b[1..]);
      UniquelyDecodable(a[1..], b[1..]);
    }
  }

  // ----- checksum theorems -----

  lemma {:induction false} ByteSumBound(data: seq<byte>)
    ensures ByteSum(data) <= 255 * |data|
  {
    if data != [] {
      ByteSumBound(data[1..]);
    }
  }

  lemma {:induction false} ByteSumOfMax(n: nat)
    ensures ByteSum(seq(n, _ => 255)) == 255 * n
  {
    var s: seq<byte> := seq(n, _ => 255);
    if n > 0 {
      ByteSumOfMax(n - 1);
      assert s[1..] == seq(n - 1, _ => 255);
    }
  }

  const SAFE_PAYLOAD: nat := 16_843_009

  /** The 32-bit sum is exact for every payload of a given length exactly when that length is at most SAFE_PAYLOAD. */
  lemma ChecksumExactIff(n: nat)
    ensures n <= SAFE_PAYLOAD <==> forall data: seq<byte> :: |data| == n ==> Checksum(data) == ByteSum(data)
    ensures MAX_PAYLOAD <= SAFE_PAYLOAD
  {
    if n <= SAFE_PAYLOAD {
      forall data: seq<byte> | |data| == n
        ensures Checksum(data) == ByteSum(data)
      {
        ByteSumBound(data);
      }
    } else {
      var worst: seq<byte> := seq(n, _ => 255);
      ByteSumOfMax(n);
      assert |worst| == n && Checksum(worst) != ByteSum(worst);
    }
  }

  /** Changing one payload byte in transit is always noticed. */
  lemma OneByteCorruptionRejected(m: Message, i: nat, b: byte)
    requires i < |m.data| < TWO_32 && b != m.data[i]
    ensures FromBytes(Encode(m)[HEADER_SIZE + i := b]) == Failure(ChecksumMismatch)
  {
    hide Words, Word, ByteSum;
    var bad := m.data[i := b];
    var buf := Encode(m)[HEADER_SIZE + i := b];
    assert buf == Words(HeaderWords(m)) + bad;
    HeaderFields(m, bad);
    assert buf[HEADER_SIZE..HEADER_SIZE + |m.data|] == bad;
    ByteSumUpdate(m.data, i, b);
    DifferModulo(ByteSum(bad), ByteSum(m.data));
  }

  lemma {:induction false} ByteSumUpdate(data: seq<byte>, i: nat, b: byte)
    requires i < |data|
    ensures ByteSum(data[i := b]) - ByteSum(data) == b as int - data[i] as int
  {
    if i == 0 {
      assert data[i := b][1..] == data[1..];
    } else {
      ByteSumUpdate(data[1..], i - 1, b);
      assert data[i := b][1..] == data[1..][i - 1 := b];
    }
  }

  lemma DifferModulo(a: nat, b: nat)
    requires a != b && -256 < a - b < 256
    ensures a % 0x1_0000_0000 != b % 0x1_0000_0000
  {
    var qa, qb := a / 0x1_0000_0000, b / 0x1_0000_0000;
    assert a == 0x1_0000_0000 * qa + a % 0x1_0000_0000;
    assert b == 0x1_0000_0000 * qb + b % 0x1_0000_0000;
  }

  // ----- stream table -----

  datatype StreamState = StreamState(localId: u32, remoteId: u32, open: bool)

  /** The streams without the one called `id`. */
  function Without(streams: seq<StreamState>, id: u32): (r: seq<StreamState>) {
    if streams == [] then []
    else if streams[0].localId == id then Without(streams[1..], id)
    else [streams[0]] + Without(streams[1..], id)
  }

  ghost predicate Unregistered(streams: seq<StreamState>, id: u32) {
    forall i :: 0 <= i < |streams| ==> streams[i].localId != id
  }

  lemma {:induction false} WithoutUnregistered(streams: seq<StreamState>, id: u32)
    requires Unregistered(streams, id)
    ensures Without(streams, id) == streams
  {
    if streams != [] {
      assert streams[0].localId != id;
      assert forall i :: 0 <= i < |streams[1..]| ==> streams[1..][i] == streams[i + 1];
      WithoutUnregistered(streams[1..], id);
    }
  }

  lemma {:induction false} WithoutSnoc(streams: seq<StreamState>, s: StreamState)
    ensures Without(streams + [s], s.localId) == Without(streams, s.localId)
  {
    if streams == [] {
      assert streams + [s] == [s];
    } else {
      WithoutSnoc(streams[1..], s);
      assert (streams + [s])[1..] == streams[1..] + [s];
    }
  }

  class StreamManager {
    var nextLocalId: u32
    var streams: seq<StreamState>

    /** Live ids are distinct and below the counter. */
    ghost predicate Valid()
      reads this
    {
      && (forall s :: s in streams ==> 1 <= s.localId < nextLocalId)
      && DistinctIds(streams)
      && 1 <= nextLocalId
    }

    ghost predicate Has(id: u32)
      reads this
    {
      exists s :: s in streams && s.localId == id
    }

    constructor ()
      ensures Valid() && nextLocalId == 1 && streams == []
    {
      nextLocalId := 1;
      streams := [];
    }

    /** The id counter must not overflow: the addition panics in a checked build. */
    method OpenStream() returns (id: u32)
      requires Valid() && nextLocalId < 0xFFFF_FFFF
      modifies this
      ensures Valid() && id == old(nextLocalId) && nextLocalId == id + 1
      ensures streams == old(streams) + [StreamState(id, 0, false)]
      ensures Unregistered(old(streams), id)
    {
      id := nextLocalId;
      nextLocalId := nextLocalId + 1;
      streams := streams + [StreamState(id, 0, false)];
    }

    method HandleOkay(localId: u32, remoteId: u32) returns (r: Result<(), AdbError>)
      requires Valid()
      modifies this`streams
      ensures Valid()
      ensures r.Success? <==> old(Has(localId))
      ensures r.Failure? ==> r.error == UnknownStream && streams == old(streams)
      ensures |streams| == |old(streams)|
      ensures forall i :: 0 <= i < |streams| ==>
        streams[i] == if old(streams)[i].localId == localId then StreamState(localId, remoteId, true) else old(streams)[i]
    {
      var i := 0;
      while i < |streams|
        invariant 0 <= i <= |streams|
        invariant forall k :: 0 <= k < i ==> streams[k].localId != localId
      {
        if streams[i].localId == localId {
          streams := streams[i := StreamState(localId, remoteId, true)];
          return Success(());
        }
        i := i + 1;
      }
      return Failure(UnknownStream);
    }

    method HandleClose(localId: u32)
      requires Valid()
      modifies this`streams
      ensures Valid() && |streams| == |old(streams)|
      ensures forall i :: 0 <= i < |streams| ==>
        streams[i] == if old(streams)[i].localId == localId then old(streams)[i].(open := false) else old(streams)[i]
    {
      var i := 0;
      while i < |streams|
        invariant 0 <= i <= |streams|
        invariant forall k :: 0 <= k < i ==> streams[k].localId != localId
      {
        if streams[i].localId == localId {
          streams := streams[i := streams[i].(open := false)];
          return;
        }
        i := i + 1;
      }
    }

    method RemoveStream(localId: u32)
      requires Valid()
      modifies this`streams
      ensures Valid() && streams == Without(old(streams), localId) && !Has(localId)
    {
      WithoutValid(streams, localId);
      streams := Without(streams, localId);
    }
  }

  ghost predicate DistinctIds(streams: seq<StreamState>) {
    forall i, j :: 0 <= i < j < |streams| ==> streams[i].localId != streams[j].localId
  }

  /** Removal keeps only entries that were there, none of them the removed one, and keeps ids distinct. */
  lemma {:induction false} WithoutValid(streams: seq<StreamState>, id: u32)
    ensures forall s :: s in Without(streams, id) <==> s in streams && s.localId != id
    ensures DistinctIds(streams) ==> DistinctIds(Without(streams, id))
  {
    if streams != [] {
      var t := Without(streams[1..], id);
      WithoutValid(streams[1..], id);
      assert streams == [streams[0]] + streams[1..];
      if DistinctIds(streams) {
        assert DistinctIds(streams[1..]);
        forall s | s in t
          ensures s.localId != streams[0].localId
        {
          assert s in streams[1..];
        }
      }
    }
  }
}
