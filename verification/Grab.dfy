/** Capture of the host cursor, and the whole-pixel motions computed from its positions. */
module Grab {
  import opened Numbers

  datatype GrabMode = Free | Grabbed

  type Point = (real, real)

  function DeltaOf(from: real, to: real): (d: int)
    ensures I32_MIN <= d <= I32_MAX
  {
    SatI32(Round(to - from))
  }

  /** The motions along one axis of a path, one per position; the first, the baseline, moves nothing. */
  function Deltas(path: seq<real>): (d: seq<int>)
    ensures |d| == |path|
  {
    if path == [] then []
    else if |path| == 1 then [0]
    else Deltas(path[..|path| - 1]) + [DeltaOf(path[|path| - 2], path[|path| - 1])]
  }

  function Sum(d: seq<int>): int {
    if d == [] then 0 else Sum(d[..|d| - 1]) + d[|d| - 1]
  }

  lemma SumSnoc(d: seq<int>, x: int)
    ensures Sum(d + [x]) == Sum(d) + x
  {
    assert (d + [x])[..|d|] == d;
  }

  lemma DeltasSnoc(path: seq<real>, x: real)
    requires path != []
    ensures Deltas(path + [x]) == Deltas(path) + [DeltaOf(path[|path| - 1], x)]
  {
    assert (path + [x])[..|path|] == path;
  }

  lemma FirstDelta(x: real)
    ensures Deltas([]) == [] && Deltas([x]) == [0]
  {
  }

  /** One motion more. */
  lemma SumOfDeltas(path: seq<real>)
    requires path != []
    ensures var k := |path| - 1;
            Sum(Deltas(path)) == if k == 0 then 0 else Sum(Deltas(path[..k])) + DeltaOf(path[k - 1], path[k])
  {
    var k := |path| - 1;
    hide DeltaOf;
    if k == 0 {
      SumSnoc([], 0);
      assert Deltas(path) == [] + [0];
    } else {
      SumSnoc(Deltas(path[..k]), DeltaOf(path[k - 1], path[k]));
    }
  }

  /** No single step is too long for a 32-bit motion. */
  ghost predicate StepsFit(path: seq<real>) {
    forall i :: 1 <= i < |path| ==> StepFits(path[i - 1], path[i])
  }

  predicate StepFits(from: real, to: real) {
    I32_MIN <= Round(to - from) <= I32_MAX
  }

  lemma DeltaNear(from: real, to: real)
    requires StepFits(from, to)
    ensures -0.5 <= DeltaOf(from, to) as real - (to - from) <= 0.5
  {
    RoundNear(to - from);
  }

  lemma DeltaExact(from: int, to: int)
    requires StepFits(from as real, to as real)
    ensures DeltaOf(from as real, to as real) == to - from
  {
    RoundInt(to - from);
    assert (to - from) as real == to as real - from as real;
  }

  /** Over n motions after the baseline, what was sent differs from the true displacement by at most n/2. */
  lemma {:induction false} DriftBounded(path: seq<real>)
    requires path != [] && StepsFit(path)
    ensures var drift := Sum(Deltas(path)) as real - (path[|path| - 1] - path[0]);
            var n := (|path| - 1) as real;
            -n / 2.0 <= drift <= n / 2.0
  {
    hide Sum, Deltas, DeltaOf, StepFits;
    SumOfDeltas(path);
    var k := |path| - 1;
    if k > 0 {
      DriftBounded(path[..k]);
      DeltaNear(path[k - 1], path[k]);
    }
  }

  /** The same from any later position on: the motions after the first h against the displacement since the h-th position. */
  lemma {:induction false} DriftSince(path: seq<real>, h: nat)
    requires 1 <= h <= |path| && StepsFit(path)
    ensures var drift := Sum(Deltas(path)[h..]) as real - (path[|path| - 1] - path[h - 1]);
            var n := (|path| - h) as real;
            -n / 2.0 <= drift <= n / 2.0
  {
    hide Sum, Deltas, DeltaOf, StepFits;
    var k := |path| - 1;
    if h == |path| {
      assert Deltas(path)[h..] == [];
      SumNothing();
    } else {
      SumOfDeltasSince(path, h);
      DriftSince(path[..k], h);
      DeltaNear(path[k - 1], path[k]);
    }
  }

  lemma SumNothing()
    ensures Sum([]) == 0
  {
  }

  lemma SumOfDeltasSince(path: seq<real>, h: nat)
    requires 1 <= h < |path|
    ensures var k := |path| - 1;
            Sum(Deltas(path)[h..]) == Sum(Deltas(path[..k])[h..]) + DeltaOf(path[k - 1], path[k])
  {
    hide DeltaOf, Sum, Deltas;
    var k := |path| - 1;
    var before, delta := Deltas(path[..k]), DeltaOf(path[k - 1], path[k]);
    assert path == path[..k] + [path[k]];
    DeltasSnoc(path[..k], path[k]);
    assert (before + [delta])[h..] == before[h..] + [delta];
    SumSnoc(before[h..], delta);
  }

  ghost predicate OnPixels(path: seq<real>) {
    forall i :: 0 <= i < |path| ==> path[i] == path[i].Floor as real
  }

  /** Between whole-pixel positions nothing is lost. */
  lemma {:induction false} NoDriftOnPixels(path: seq<real>)
    requires path != [] && StepsFit(path) && OnPixels(path)
    ensures Sum(Deltas(path)) as real == path[|path| - 1] - path[0]
  {
    hide Sum, Deltas, DeltaOf, StepFits;
    SumOfDeltas(path);
    var k := |path| - 1;
    if k > 0 {
      NoDriftOnPixels(path[..k]);
      DeltaExact(path[k - 1].Floor, path[k].Floor);
    }
  }

  function HalfSteps(n: nat): (path: seq<real>)
    ensures |path| == n + 1 && path[0] == 0.0 && path[n] == n as real / 2.0
  {
    if n == 0 then [0.0] else HalfSteps(n - 1) + [n as real / 2.0]
  }

  lemma HalfUp(from: real)
    ensures DeltaOf(from, from + 0.5) == 1
  {
  }

  /** The bound is reached: n motions of half a pixel each are sent as n whole pixels. */
  lemma {:induction false} DriftReached(n: nat)
    ensures Sum(Deltas(HalfSteps(n))) == n
  {
    hide Sum, Deltas, DeltaOf;
    var path := HalfSteps(n);
    SumOfDeltas(path);
    if n > 0 {
      assert path[..n] == HalfSteps(n - 1) && path[n - 1] == (n - 1) as real / 2.0;
      DriftReached(n - 1);
      HalfUp(path[n - 1]);
    }
  }

  // ----- the grab state -----

  function Xs(path: seq<Point>): (r: seq<real>)
    ensures |r| == |path| && forall i :: 0 <= i < |r| ==> r[i] == path[i].0
  {
    seq(|path|, i requires 0 <= i < |path| => path[i].0)
  }

  function Ys(path: seq<Point>): (r: seq<real>)
    ensures |r| == |path| && forall i :: 0 <= i < |r| ==> r[i] == path[i].1
  {
    seq(|path|, i requires 0 <= i < |path| => path[i].1)
  }

  lemma AxesSnoc(path: seq<Point>, x: real, y: real)
    ensures Xs(path + [(x, y)]) == Xs(path) + [x] && Ys(path + [(x, y)]) == Ys(path) + [y]
    ensures path == [] ==> Xs(path) == [] && Ys(path) == []
  {
  }

  class InputGrabState {
    var mode: GrabMode
    var lastX: real
    var lastY: real
    var hasLastPosition: bool
    /** The positions since the baseline, and the motions reported for them. */
    ghost var path: seq<Point>
    ghost var sentX: seq<int>
    ghost var sentY: seq<int>

    ghost predicate Valid()
      reads this
    {
      && (hasLastPosition <==> path != [])
      && (path != [] ==> path[|path| - 1] == (lastX, lastY))
      && sentX == Deltas(Xs(path)) && sentY == Deltas(Ys(path))
    }

    constructor ()
      ensures Valid() && mode == Free && path == [] && sentX == [] && sentY == []
    {
      mode, lastX, lastY, hasLastPosition := Free, 0.0, 0.0, false;
      path, sentX, sentY := [], [], [];
    }

    method Toggle() returns (now: GrabMode)
      requires Valid()
      modifies this
      ensures Valid() && path == [] && sentX == [] && sentY == []
      ensures now == mode && mode != old(mode)
    {
      mode := match mode
        case Free => Grabbed
        case Grabbed => Free;
      hasLastPosition := false;
      path, sentX, sentY := [], [], [];
      now := mode;
    }

    method ResetPosition()
      requires Valid()
      modifies this
      ensures Valid() && path == [] && sentX == [] && sentY == [] && mode == old(mode)
    {
      hasLastPosition := false;
      path, sentX, sentY := [], [], [];
    }

    method ComputeDelta(x: real, y: real) returns (dx: int, dy: int)
      requires Valid()
      modifies this
      ensures Valid() && mode == old(mode)
      ensures path == old(path) + [(x, y)]
      ensures sentX == old(sentX) + [dx] && sentY == old(sentY) + [dy]
      ensures I32_MIN <= dx <= I32_MAX && I32_MIN <= dy <= I32_MAX
    {
      AxesSnoc(path, x, y);
      FirstDelta(x);
      FirstDelta(y);
      hide DeltaOf, Deltas, Xs, Ys;
      if !hasLastPosition {
        assert [] + [x] == [x] && [] + [y] == [y] && [] + [0] == [0];
        lastX, lastY, hasLastPosition := x, y, true;
        path, sentX, sentY := path + [(x, y)], sentX + [0], sentY + [0];
        return 0, 0;
      }
      dx := DeltaOf(lastX, x);
      dy := DeltaOf(lastY, y);
      DeltasSnoc(Xs(path), x);
      DeltasSnoc(Ys(path), y);
      lastX, lastY := x, y;
      path, sentX, sentY := path + [(x, y)], sentX + [dx], sentY + [dy];
    }
  }

  /** What the guest's pointer has drifted by, on both axes, at any time after a baseline. */
  lemma GrabDrift(g: InputGrabState)
    requires g.Valid() && g.path != [] && StepsFit(Xs(g.path)) && StepsFit(Ys(g.path))
    ensures var n := (|g.path| - 1) as real;
            && -n / 2.0 <= Sum(g.sentX) as real - (g.lastX - g.path[0].0) <= n / 2.0
            && -n / 2.0 <= Sum(g.sentY) as real - (g.lastY - g.path[0].1) <= n / 2.0
  {
    DriftBounded(Xs(g.path));
    DriftBounded(Ys(g.path));
  }

  lemma GrabDriftSince(g: InputGrabState, h: nat)
    requires g.Valid() && 1 <= h <= |g.path| && StepsFit(Xs(g.path)) && StepsFit(Ys(g.path))
    ensures |g.sentX| == |g.sentY| == |g.path|
    ensures var n := (|g.path| - h) as real;
            var (x0, y0) := g.path[h - 1];
            && -n / 2.0 <= Sum(g.sentX[h..]) as real - (g.lastX - x0) <= n / 2.0
            && -n / 2.0 <= Sum(g.sentY[h..]) as real - (g.lastY - y0) <= n / 2.0
  {
    hide Sum, Deltas, StepsFit;
    DriftSince(Xs(g.path), h);
    DriftSince(Ys(g.path), h);
  }
}
