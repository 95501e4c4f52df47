/** The rolling frame counter against the full history of frames. */
module FpsCounter {
  /** Nanoseconds on the monotonic clock, whose zero may lie anywhere. */
  type Instant = int

  const WINDOW: nat := 1_000_000_000
  const TWO_32: nat := 0x1_0000_0000

  /** The instants of h that are not before `floor`, in order. */
  function Since(h: seq<Instant>, floor: Instant): (r: seq<Instant>)
    ensures |r| <= |h|
  {
    if h == [] then []
    else
      var last := |h| - 1;
      Since(h[..last], floor) + if h[last] >= floor then [h[last]] else []
  }

  /** How many frames of h lie in the closed interval. */
  function Count(h: seq<Instant>, from: Instant, to: Instant): (n: nat) {
    if h == [] then 0
    else
      var last := |h| - 1;
      Count(h[..last], from, to) + if from <= h[last] <= to then 1 else 0
  }

  ghost predicate Sorted(h: seq<Instant>) {
    forall i, j :: 0 <= i < j < |h| ==> h[i] <= h[j]
  }

  ghost predicate UpTo(h: seq<Instant>, now: Instant) {
    forall i :: 0 <= i < |h| ==> h[i] <= now
  }

  lemma SinceSnoc(h: seq<Instant>, t: Instant, floor: Instant)
    ensures Since(h + [t], floor) == Since(h, floor) + if t >= floor then [t] else []
  {
    assert (h + [t])[..|h|] == h;
  }

  lemma {:induction false} SinceTwice(h: seq<Instant>, a: Instant, b: Instant)
    requires a <= b
    ensures Since(Since(h, a), b) == Since(h, b)
  {
    if h != [] {
      var last := |h| - 1;
      SinceTwice(h[..last], a, b);
      if h[last] >= a {
        SinceSnoc(Since(h[..last], a), h[last], b);
      } else {
        assert Since(h, a) == Since(h[..last], a);
      }
    }
  }

  lemma {:induction false} SinceCounts(h: seq<Instant>, floor: Instant, now: Instant)
    requires UpTo(h, now)
    ensures |Since(h, floor)| == Count(h, floor, now)
  {
    if h != [] {
      SinceCounts(h[..|h| - 1], floor, now);
    }
  }

  lemma {:induction false} SinceJoin(a: seq<Instant>, b: seq<Instant>, floor: Instant)
    ensures Since(a + b, floor) == Since(a, floor) + Since(b, floor)
  {
    if b == [] {
      assert a + b == a;
    } else {
      var last := |b| - 1;
      assert a + b == (a + b[..last]) + [b[last]];
      SinceSnoc(a + b[..last], b[last], floor);
      SinceJoin(a, b[..last], floor);
    }
  }

  lemma {:induction false} SinceNone(s: seq<Instant>, floor: Instant)
    requires forall i :: 0 <= i < |s| ==> s[i] < floor
    ensures Since(s, floor) == []
  {
    if s != [] {
      SinceNone(s[..|s| - 1], floor);
    }
  }

  lemma {:induction false} SinceWhole(s: seq<Instant>, floor: Instant)
    requires forall i :: 0 <= i < |s| ==> s[i] >= floor
    ensures Since(s, floor) == s
  {
    if s != [] {
      SinceWhole(s[..|s| - 1], floor);
      assert s == s[..|s| - 1] + [s[|s| - 1]];
    }
  }

  /** A sorted deque is cut at the first instant that is recent enough. */
  lemma SinceIsSuffix(s: seq<Instant>, k: nat, floor: Instant)
    requires Sorted(s) && k <= |s|
    requires forall i :: 0 <= i < k ==> s[i] < floor
    requires k < |s| ==> s[k] >= floor
    ensures Since(s, floor) == s[k..]
  {
    hide Since;
    assert s == s[..k] + s[k..];
    SinceJoin(s[..k], s[k..], floor);
    SinceNone(s[..k], floor);
    SinceWhole(s[k..], floor);
  }

  /** Counting from a later floor loses exactly the frames between. */
  lemma {:induction false} CountSplits(h: seq<Instant>, low: Instant, floor: Instant, now: Instant)
    requires low <= floor <= now + 1
    ensures Count(h, low, now) == Count(h, floor, now) + Count(h, low, floor - 1)
  {
    if h != [] {
      CountSplits(h[..|h| - 1], low, floor, now);
    }
  }

  lemma {:induction false} CountNone(h: seq<Instant>, from: Instant, to: Instant)
    ensures Count(h, from, to) == 0 <==> forall i :: 0 <= i < |h| ==> !(from <= h[i] <= to)
  {
    if h != [] {
      CountNone(h[..|h| - 1], from, to);
    }
  }

  /**
   The start of the window, or `now` itself if the platform cannot represent that start: `origin` is the
   least instant it can represent.
   */
  function Cutoff(now: Instant, origin: Instant): (c: Instant)
    ensures now - WINDOW <= c <= now
  {
    if now - WINDOW >= origin then now - WINDOW else now
  }

  function Later(a: Instant, b: Instant): Instant {
    if a < b then b else a
  }

  lemma {:induction false} SinceFloor(h: seq<Instant>, floor: Instant)
    ensures forall i :: 0 <= i < |Since(h, floor)| ==> Since(h, floor)[i] >= floor
  {
    if h != [] {
      SinceFloor(h[..|h| - 1], floor);
    }
  }

  lemma {:induction false} SinceSorted(h: seq<Instant>, floor: Instant)
    requires Sorted(h)
    ensures Sorted(Since(h, floor))
    ensures h != [] ==> UpTo(Since(h, floor), h[|h| - 1])
  {
    if |h| > 1 {
      SinceSorted(h[..|h| - 1], floor);
    }
  }

  /** Dropping the first k entries, those before the cutoff, leaves what is since the later of floor and cutoff. */
  lemma WhatIsLeft(h: seq<Instant>, floor: Instant, k: nat, cutoff: Instant)
    requires Sorted(h) && k <= |Since(h, floor)|
    requires forall i :: 0 <= i < k ==> Since(h, floor)[i] < cutoff
    requires k < |Since(h, floor)| ==> Since(h, floor)[k] >= cutoff
    ensures Since(h, floor)[k..] == Since(h, Later(floor, cutoff))
  {
    var s := Since(h, floor);
    SinceSorted(h, floor);
    SinceFloor(h, floor);
    if floor <= cutoff {
      SinceIsSuffix(s, k, cutoff);
      SinceTwice(h, floor, cutoff);
    } else {
      assert |s| > 0 ==> s[0] >= floor;
      assert s[k..] == s;
    }
  }

  // ----- what the instants used for pruning do -----

  /** The latest cutoff so far. */
  function FloorOf(pruned: seq<Instant>, origin: Instant): Instant {
    if pruned == [] then origin
    else Later(FloorOf(pruned[..|pruned| - 1], origin), Cutoff(pruned[|pruned| - 1], origin))
  }

  lemma FloorSnoc(pruned: seq<Instant>, now: Instant, origin: Instant)
    ensures FloorOf(pruned + [now], origin) == Later(FloorOf(pruned, origin), Cutoff(now, origin))
  {
    assert (pruned + [now])[..|pruned|] == pruned;
  }

  lemma {:induction false} FloorAbove(pruned: seq<Instant>, origin: Instant, j: nat)
    requires j < |pruned|
    ensures Cutoff(pruned[j], origin) <= FloorOf(pruned, origin)
  {
    if j < |pruned| - 1 {
      FloorAbove(pruned[..|pruned| - 1], origin, j);
    }
  }

  lemma {:induction false} FloorAttained(pruned: seq<Instant>, origin: Instant)
    ensures FloorOf(pruned, origin) == origin
         || exists j :: 0 <= j < |pruned| && FloorOf(pruned, origin) == Cutoff(pruned[j], origin)
  {
    if pruned != [] {
      var last := |pruned| - 1;
      FloorAttained(pruned[..last], origin);
      if FloorOf(pruned, origin) != origin {
        if FloorOf(pruned, origin) == Cutoff(pruned[last], origin) {
        } else {
          var j :| 0 <= j < last && FloorOf(pruned[..last], origin) == Cutoff(pruned[..last][j], origin);
          assert FloorOf(pruned, origin) == Cutoff(pruned[j], origin);
        }
      }
    }
  }

  /** A frame of the window is older than an instant that was used within one window of the clock's origin. */
  ghost predicate Spoilt(history: seq<Instant>, pruned: seq<Instant>, origin: Instant, now: Instant) {
    exists i, j :: 0 <= i < |history| && 0 <= j < |pruned|
                && pruned[j] - WINDOW < origin && now - WINDOW <= history[i] < pruned[j]
  }

  /** With no instant used within one window of the origin, as on a clock without one, nothing is spoilt. */
  lemma LateInstantsSpoilNothing(history: seq<Instant>, pruned: seq<Instant>, origin: Instant, now: Instant)
    requires forall j :: 0 <= j < |pruned| ==> pruned[j] >= origin + WINDOW
    ensures !Spoilt(history, pruned, origin, now)
  {
  }

  /** The instants a counter has been given: none before the origin, none after now. */
  ghost predicate InRange(h: seq<Instant>, origin: Instant, now: Instant) {
    forall i :: 0 <= i < |h| ==> origin <= h[i] <= now
  }

  lemma LostFrame(history: seq<Instant>, pruned: seq<Instant>, origin: Instant, now: Instant, i: nat)
    requires InRange(history, origin, now) && InRange(pruned, origin, now) && i < |history|
    requires now - WINDOW <= history[i] < FloorOf(pruned, origin)
    ensures Spoilt(history, pruned, origin, now)
  {
    FloorAttained(pruned, origin);
    hide FloorOf;
    var j :| 0 <= j < |pruned| && FloorOf(pruned, origin) == Cutoff(pruned[j], origin);
    assert pruned[j] <= now;
  }

  /** The frames since the latest cutoff are those of the window ending now exactly when nothing is spoilt. */
  lemma TrueCountIff(history: seq<Instant>, pruned: seq<Instant>, origin: Instant, now: Instant)
    requires InRange(history, origin, now) && InRange(pruned, origin, now)
    requires pruned != [] && pruned[|pruned| - 1] == now
    ensures var floor := FloorOf(pruned, origin);
            && now - WINDOW <= floor <= now
            && (Count(history, floor, now) == Count(history, now - WINDOW, now) <==> !Spoilt(history, pruned, origin, now))
  {
    var floor, low := FloorOf(pruned, origin), now - WINDOW;
    FloorAbove(pruned, origin, |pruned| - 1);
    FloorBelow(pruned, origin, now);
    hide FloorOf;
    CountSplits(history, low, floor, now);
    CountNone(history, low, floor - 1);
    hide Count;
    if i :| 0 <= i < |history| && low <= history[i] <= floor - 1 {
      LostFrame(history, pruned, origin, now, i);
    }
    if Spoilt(history, pruned, origin, now) {
      var i, j :| 0 <= i < |history| && 0 <= j < |pruned| && pruned[j] - WINDOW < origin && low <= history[i] < pruned[j];
      FloorAbove(pruned, origin, j);
      assert low <= history[i] <= floor - 1;
    }
  }

  lemma {:induction false} FloorBelow(pruned: seq<Instant>, origin: Instant, now: Instant)
    requires InRange(pruned, origin, now) && origin <= now
    ensures FloorOf(pruned, origin) <= now
  {
    if pruned != [] {
      FloorBelow(pruned[..|pruned| - 1], origin, now);
    }
  }

  lemma {:induction false} LongerUnlessEqual(h: seq<Instant>, low: Instant, floor: Instant)
    requires low <= floor
    ensures |Since(h, floor)| <= |Since(h, low)|
    ensures |Since(h, floor)| == |Since(h, low)| ==> Since(h, floor) == Since(h, low)
  {
    if h != [] {
      LongerUnlessEqual(h[..|h| - 1], low, floor);
    }
  }

  class Counter {
    const origin: Instant
    var timestamps: seq<Instant>
    var lastFps: nat
    var lastUpdate: Instant
    /** Every frame recorded, every instant at which old frames were dropped, and the latest of all these. */
    ghost var history: seq<Instant>
    ghost var pruned: seq<Instant>
    ghost var clock: Instant

    ghost predicate Valid()
      reads this
    {
      && origin <= clock
      && Sorted(history) && InRange(history, origin, clock) && InRange(pruned, origin, clock)
      && timestamps == Since(history, FloorOf(pruned, origin))
    }

    constructor (origin: Instant, now: Instant)
      requires origin <= now
      ensures Valid() && this.origin == origin && clock == origin && lastFps == 0 && lastUpdate == now
      ensures history == [] && pruned == []
    {
      this.origin := origin;
      timestamps, lastFps, lastUpdate := [], 0, now;
      history, pruned, clock := [], [], origin;
    }

    method Prune(now: Instant)
      requires Valid() && clock <= now
      modifies `timestamps, `pruned, `clock
      ensures Valid() && clock == now && pruned == old(pruned) + [now]
    {
      var cutoff := Cutoff(now, origin);
      ghost var before, floor := timestamps, FloorOf(pruned, origin);
      ghost var k := 0;
      FloorSnoc(pruned, now, origin);
      hide Since, FloorOf;
      while |timestamps| > 0 && timestamps[0] < cutoff
        invariant (pruned, clock) == old((pruned, clock)) && before == Since(history, floor)
        invariant k <= |before| && timestamps == before[k..]
        invariant forall i :: 0 <= i < k ==> before[i] < cutoff
        decreases |timestamps|
      {
        assert timestamps[0] == before[k];
        timestamps := timestamps[1..];
        k := k + 1;
      }
      WhatIsLeft(history, floor, k, cutoff);
      pruned, clock := pruned + [now], now;
    }

    /** The deque is the full history filtered to the window ending now, exactly unless something is spoilt. */
    method RecordFrame(now: Instant)
      requires Valid() && clock <= now
      modifies `timestamps, `history, `pruned, `clock
      ensures Valid() && clock == now && history == old(history) + [now] && pruned == old(pruned) + [now]
      ensures timestamps == Since(history, now - WINDOW) <==> !Spoilt(history, pruned, origin, now)
    {
      RecordedSurvives(history, now, pruned, origin);
      hide Since, FloorOf, Spoilt;
      timestamps := timestamps + [now];
      history, clock := history + [now], now;
      Prune(now);
      TrueFilterIff(history, pruned, origin, now);
    }

    /** Once a window has passed, the cached value becomes the number of frames in the closed window ending now, exactly unless something is spoilt. */
    method Update(now: Instant) returns (refreshed: bool)
      requires Valid() && clock <= now
      modifies this
      ensures Valid() && history == old(history)
      ensures refreshed <==> now >= old(lastUpdate) + WINDOW
      ensures !refreshed ==> lastFps == old(lastFps) && lastUpdate == old(lastUpdate) && pruned == old(pruned)
      ensures refreshed ==> lastUpdate == now && pruned == old(pruned) + [now]
      ensures refreshed ==> lastFps == |timestamps| % TWO_32
      ensures refreshed ==> (|timestamps| == Count(history, now - WINDOW, now) <==> !Spoilt(history, pruned, origin, now))
    {
      hide Since, Count, Spoilt, FloorOf;
      refreshed := now >= lastUpdate + WINDOW;
      if refreshed {
        Prune(now);
        SinceCounts(history, FloorOf(pruned, origin), now);
        TrueCountIff(history, pruned, origin, now);
        lastFps := |timestamps| % TWO_32;
        lastUpdate := now;
      }
    }
  }

  lemma RecordedSurvives(h: seq<Instant>, now: Instant, pruned: seq<Instant>, origin: Instant)
    requires InRange(pruned, origin, now) && origin <= now
    ensures Since(h + [now], FloorOf(pruned, origin)) == Since(h, FloorOf(pruned, origin)) + [now]
  {
    FloorBelow(pruned, origin, now);
    SinceSnoc(h, now, FloorOf(pruned, origin));
  }

  lemma TrueFilterIff(history: seq<Instant>, pruned: seq<Instant>, origin: Instant, now: Instant)
    requires InRange(history, origin, now) && InRange(pruned, origin, now)
    requires pruned != [] && pruned[|pruned| - 1] == now
    ensures Since(history, FloorOf(pruned, origin)) == Since(history, now - WINDOW) <==> !Spoilt(history, pruned, origin, now)
  {
    var floor, low := FloorOf(pruned, origin), now - WINDOW;
    TrueCountIff(history, pruned, origin, now);
    hide FloorOf, Spoilt, Since, Count;
    SinceCounts(history, floor, now);
    SinceCounts(history, low, now);
    LongerUnlessEqual(history, low, floor);
  }

  lemma TwoFrames(origin: Instant)
    ensures Since([origin, origin + 1], origin + 1) == [origin + 1]
    ensures Count([origin, origin + 1], origin, origin + WINDOW) == 2
  {
    var h := [origin, origin + 1];
    assert h[..1] == [origin] && [origin][..0] == [];
    assert Since([origin], origin + 1) == [] && Count([origin], origin, origin + WINDOW) == 1;
  }

  lemma EarlyFloor(o: Instant)
    ensures FloorOf([o, o + 1, o + WINDOW], o) == o + 1
  {
    assert FloorOf([], o) == o;
    FloorSnoc([], o, o);
    FloorSnoc([o], o + 1, o);
    FloorSnoc([o, o + 1], o + WINDOW, o);
    hide FloorOf;
    assert [] + [o] == [o] && [o] + [o + 1] == [o, o + 1] && [o, o + 1] + [o + WINDOW] == [o, o + 1, o + WINDOW];
  }

  /** On every clock with an origin: of two frames at its very beginning, a refresh one window later counts one. */
  method EarlyFrameLost(origin: Instant) returns (c: Counter)
    ensures c.origin == origin && c.history == [origin, origin + 1] && c.lastUpdate == origin + WINDOW
    ensures Count(c.history, origin, origin + WINDOW) == 2 && c.lastFps == 1
  {
    TwoFrames(origin);
    EarlyFloor(origin);
    hide Count, Since, FloorOf, Spoilt;
    c := new Counter(origin, origin);
    c.RecordFrame(origin);
    assert c.history == [origin] == c.pruned;
    c.RecordFrame(origin + 1);
    assert c.history == [origin, origin + 1] == c.pruned;
    var refreshed := c.Update(origin + WINDOW);
    assert c.pruned == [origin, origin + 1, origin + WINDOW];
  }
}
