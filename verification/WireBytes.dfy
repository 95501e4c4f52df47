/** The formats byte by byte: which byte stands where, told without the decoders. */
module WireBytes {
  import opened Bytes
  import opened AdbProtocol
  import opened AdbSyncCodec
  import opened AdbSyncGuest
  import AdbShell
  import AdbSync
  import Evdev

  function Ascii(s: string): (r: seq<byte>)
    requires forall i :: 0 <= i < |s| ==> s[i] < 128 as char
    ensures |r| == |s|
  {
    seq(|s|, i requires 0 <= i < |s| => s[i] as int)
  }

  /** The first byte is the least significant. */
  lemma LeastFirst(n: u32)
    ensures var b := ToLe(n);
            n == b[0] as int + 0x100 * (b[1] as int) + 0x1_0000 * (b[2] as int) + 0x100_0000 * (b[3] as int)
  {
    var q1 := n / 256;
    var q2 := q1 / 256;
    assert n == 256 * q1 + n % 256 && q1 == 256 * q2 + q1 % 256 && q2 == 256 * (q2 / 256) + q2 % 256;
  }

  /** Command, two arguments, length, sum and magic stand in this order before the payload. */
  lemma FrameLayout(m: Message)
    requires |m.data| < TWO_32
    ensures var b := Encode(m);
            && |b| == 24 + |m.data|
            && b[0..4] == ToLe(m.command) && b[4..8] == ToLe(m.arg0) && b[8..12] == ToLe(m.arg1)
            && b[12..16] == ToLe(|m.data|) && b[16..20] == ToLe(ByteSum(m.data) % TWO_32)
            && b[20..24] == ToLe(0xFFFF_FFFF - m.command)
            && b[24..] == m.data
  {
    hide ToLe, ByteSum;
    SixWords(HeaderWords(m));
    hide Words;
  }

  /** The sum of a payload is that of its two parts, and of one byte that byte: the order of bytes does not matter. */
  lemma {:induction false} SumOfParts(a: seq<byte>, b: seq<byte>)
    ensures ByteSum(a + b) == ByteSum(a) + ByteSum(b) && forall x: byte :: ByteSum([x]) == x
  {
    assert forall x: byte :: [x][1..] == [];
    if a == [] {
      assert a + b == b;
    } else {
      assert (a + b)[1..] == a[1..] + b;
      SumOfParts(a[1..], b);
    }
  }

  /** The four messages the host sends: what they are called on the wire, and which id stands first. */
  lemma HostMessages(local: u32, remote: u32, data: seq<byte>)
    requires |data| < TWO_32 - 1
    ensures var b := Encode(Open(local, data));
            b[0..4] == Ascii("OPEN") && b[4..8] == ToLe(local) && b[8..12] == ToLe(0) && b[24..] == data + [0]
    ensures var b := Encode(Okay(local, remote));
            b[0..4] == Ascii("OKAY") && b[4..8] == ToLe(local) && b[8..12] == ToLe(remote) && |b| == 24
    ensures var b := Encode(Wrte(local, remote, data));
            b[0..4] == Ascii("WRTE") && b[4..8] == ToLe(local) && b[8..12] == ToLe(remote) && b[24..] == data
    ensures var b := Encode(Clse(local, remote));
            b[0..4] == Ascii("CLSE") && b[4..8] == ToLe(local) && b[8..12] == ToLe(remote) && |b| == 24
  {
    CommandNames();
    hide ToLe, Ascii, Encode, ByteSum;
    FrameLayout(Open(local, data));
    FrameLayout(Okay(local, remote));
    FrameLayout(Wrte(local, remote, data));
    FrameLayout(Clse(local, remote));
  }

  lemma CommandNames()
    ensures ToLe(CMD_OPEN) == Ascii("OPEN") && ToLe(CMD_OKAY) == Ascii("OKAY")
    ensures ToLe(CMD_WRTE) == Ascii("WRTE") && ToLe(CMD_CLSE) == Ascii("CLSE")
  {
  }

  /** The services opened and the tags of the sync messages. */
  lemma ServiceNames()
    ensures AdbShell.SHELL_SERVICE == Ascii("shell:") && AdbShell.SCREENCAP == Ascii("screencap -p") && SYNC_SERVICE == Ascii("sync:")
    ensures SYNC_SEND == Ascii("SEND") && SYNC_RECV == Ascii("RECV") && SYNC_DATA == Ascii("DATA") && SYNC_DONE == Ascii("DONE")
    ensures SYNC_OKAY == Ascii("OKAY") && SYNC_FAIL == Ascii("FAIL") && SYNC_QUIT == Ascii("QUIT")
  {
  }

  /** Tag, length, data. */
  lemma SyncLayout(m: SyncMessage)
    requires |m.data| < TWO_32
    ensures var b := SyncEncode(m);
            |b| == 8 + |m.data| && b[0..4] == m.command && b[4..8] == ToLe(|m.data|) && b[8..] == m.data
  {
    hide ToLe;
  }

  /** The argument of SEND for a file with the usual permissions. */
  lemma UsualSendArgument(path: Path)
    ensures AdbSync.SendArgument(path, 420) == path + Ascii(",644")
  {
    assert AdbSync.Octal(420) == AdbSync.Octal(52) + [0x34] && AdbSync.Octal(52) == AdbSync.Octal(6) + [0x34];
  }

  /** Each word's four bytes stand where the word does. */
  lemma {:induction false} WordBytes(ws: seq<u32>, i: nat)
    requires i < |ws|
    ensures Words(ws)[4 * i..4 * i + 4] == ToLe(ws[i])
  {
    hide ToLe;
    if i > 0 {
      WordBytes(ws[1..], i - 1);
      SliceOfTail(Words(ws), 4, 4 * (i - 1), 4 * i);
      assert Words(ws)[4..] == Words(ws[1..]);
    }
  }

  lemma TwoHalves(low: Evdev.u16, high: Evdev.u16)
    ensures var b := ToLe(low + 0x1_0000 * high);
            low == b[0] as int + 0x100 * (b[1] as int) && high == b[2] as int + 0x100 * (b[3] as int)
  {
    var n := low + 0x1_0000 * high;
    assert n / 256 == low / 256 + 256 * high && n % 256 == low % 256;
    assert n / 256 / 256 == high && n / 256 % 256 == low / 256;
  }

  /** Eight zero bytes of time, the type, the code, and the value in two's complement. */
  lemma EventLayout(e: Evdev.InputEvent)
    ensures var b := Evdev.ToBytes(e);
            && |b| == 16 && b[0..8] == [0, 0, 0, 0, 0, 0, 0, 0]
            && e.eventType == b[8] as int + 0x100 * (b[9] as int)
            && e.code == b[10] as int + 0x100 * (b[11] as int)
            && b[12..16] == ToLe(if e.value < 0 then e.value + TWO_32 else e.value)
  {
    var ws: seq<u32> := [0, 0, e.eventType + 0x1_0000 * e.code, Evdev.Unsigned(e.value)];
    WordBytes(ws, 0);
    WordBytes(ws, 1);
    WordBytes(ws, 2);
    WordBytes(ws, 3);
    TwoHalves(e.eventType, e.code);
    assert ToLe(0) == [0, 0, 0, 0];
    hide ToLe, Words;
    var b := Evdev.ToBytes(e);
    assert b[0..8] == b[0..4] + b[4..8];
  }
}
