/** Bytes, 32-bit unsigned words and their little-endian form. */
module Bytes {
  type byte = b: int | 0 <= b < 256

  const TWO_32: int := 0x1_0000_0000

  type u32 = n: int | 0 <= n < 0x1_0000_0000

  /** `u32::to_le_bytes`. */
  function ToLe(n: u32): (r: seq<byte>)
    ensures |r| == 4
  {
    [n % 256, n / 256 % 256, n / 256 / 256 % 256, n / 256 / 256 / 256]
  }

  /** `u32::from_le_bytes`. */
  function FromLe(b: seq<byte>): (n: u32)
    requires |b| == 4
  {
    b[0] as int + 256 * (b[1] as int) + 65536 * (b[2] as int) + 16777216 * (b[3] as int)
  }

  lemma Split(low: byte, high: nat)
    ensures (low as int + 256 * high) % 256 == low && (low as int + 256 * high) / 256 == high
  {
  }

  lemma LeRoundTrip(n: u32)
    ensures FromLe(ToLe(n)) == n
  {
    var q1 := n / 256;
    var q2 := q1 / 256;
    var q3 := q2 / 256;
    assert n == 256 * q1 + n % 256 && q1 == 256 * q2 + q1 % 256 && q2 == 256 * q3 + q2 % 256;
  }

  lemma LeInverse(b: seq<byte>)
    requires |b| == 4
    ensures ToLe(FromLe(b)) == b
  {
    var h3: int := b[3];
    var h2 := b[2] as int + 256 * h3;
    var h1 := b[1] as int + 256 * h2;
    Split(b[0], h1);
    Split(b[1], h2);
    Split(b[2], h3);
    assert FromLe(b) == b[0] as int + 256 * h1;
  }

  // ----- runs of words -----

  /** The words one after the other, four bytes each. */
  function Words(ws: seq<u32>): (r: seq<byte>)
    ensures |r| == 4 * |ws|
  {
    if ws == [] then [] else ToLe(ws[0]) + Words(ws[1..])
  }

  /** The word at index i of a buffer. */
  function Word(buf: seq<byte>, i: nat): u32
    requires 4 * i + 4 <= |buf|
  {
    FromLe(buf[4 * i..4 * i + 4])
  }

  function WordsOf(buf: seq<byte>, n: nat): (r: seq<u32>)
    requires 4 * n <= |buf|
    ensures |r| == n
    ensures forall i :: 0 <= i < n ==> r[i] == Word(buf, i)
  {
    seq(n, i requires 0 <= i < n => Word(buf, i))
  }

  /** Each word is found where it was put, whatever follows. */
  lemma {:induction false} WordPlaced(ws: seq<u32>, rest: seq<byte>, i: nat)
    requires i < |ws|
    ensures Word(Words(ws) + rest, i) == ws[i]
  {
    hide ToLe, FromLe;
    var tail := Words(ws[1..]) + rest;
    var buf := Words(ws) + rest;
    assert buf == ToLe(ws[0]) + tail;
    if i == 0 {
      assert buf[0..4] == ToLe(ws[0]);
      LeRoundTrip(ws[0]);
    } else {
      WordPlaced(ws[1..], rest, i - 1);
      assert buf[4 * i..4 * i + 4] == tail[4 * (i - 1)..4 * (i - 1) + 4];
    }
  }

  lemma WordOfPrefix(buf: seq<byte>, n: nat, i: nat)
    requires 4 * i + 4 <= n <= |buf|
    ensures Word(buf[..n], i) == Word(buf, i)
  {
    assert buf[..n][4 * i..4 * i + 4] == buf[4 * i..4 * i + 4];
  }

  lemma SliceOfTail(buf: seq<byte>, d: nat, lo: nat, hi: nat)
    requires lo <= hi && d + hi <= |buf|
    ensures buf[d..][lo..hi] == buf[d + lo..d + hi]
  {
  }

  /** The words read from a buffer write that buffer back. */
  lemma {:induction false} WordsInverse(buf: seq<byte>, n: nat)
    requires 4 * n <= |buf|
    ensures Words(WordsOf(buf, n)) == buf[..4 * n]
  {
    hide ToLe, FromLe;
    if n > 0 {
      var tail := buf[4..];
      var ws := WordsOf(buf, n);
      forall i | 0 <= i < n - 1
        ensures Word(buf, i + 1) == Word(tail, i)
      {
        SliceOfTail(buf, 4, 4 * i, 4 * i + 4);
      }
      assert ws[1..] == WordsOf(tail, n - 1);
      WordsInverse(tail, n - 1);
      LeInverse(buf[0..4]);
      assert buf[..4 * n] == buf[0..4] + tail[..4 * (n - 1)];
    }
  }

  lemma Assoc<T>(a: seq<T>, b: seq<T>, c: seq<T>)
    ensures a + (b + c) == (a + b) + c
  {
  }

  /** All pieces, one after the other. */
  function Flatten(pieces: seq<seq<byte>>): (r: seq<byte>) {
    if pieces == [] then [] else pieces[0] + Flatten(pieces[1..])
  }

  lemma {:induction false} FlattenAppend(a: seq<seq<byte>>, b: seq<seq<byte>>)
    ensures Flatten(a + b) == Flatten(a) + Flatten(b)
  {
    if a == [] {
      assert a + b == b;
    } else {
      FlattenAppend(a[1..], b);
      assert (a + b)[1..] == a[1..] + b && (a + b)[0] == a[0];
      assert a[0] + (Flatten(a[1..]) + Flatten(b)) == (a[0] + Flatten(a[1..])) + Flatten(b);
    }
  }

  lemma FlattenSnoc(a: seq<seq<byte>>, x: seq<byte>)
    ensures Flatten(a + [x]) == Flatten(a) + x
  {
    FlattenAppend(a, [x]);
    assert Flatten([x]) == x + Flatten([]);
  }
}
