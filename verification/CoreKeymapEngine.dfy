/** The core's keymap engine: one keymap loaded at a time, looked up through an index and cached ratios. */
module CoreKeymapEngine {
  import opened Wrappers
  import opened Numbers
  import opened Products
  import opened CoreKeymap

  // ----- scaling -----

  /** A quotient of two sizes; the keymap's own size is not checked and may be zero. */
  datatype Ratio = Finite(r: real) | Infinite | NotANumber

  function RatioOf(display: nat, authored: nat): Ratio {
    if authored > 0 then Finite(display as real / authored as real)
    else if display > 0 then Infinite
    else NotANumber
  }

  /** The product rounded and cast to 32 bits; an infinity becomes a bound and no number becomes 0. */
  function ScaleOne(x: int, ratio: Ratio): (y: int)
    ensures I32_MIN <= y <= I32_MAX
  {
    match ratio
    case Finite(r) => SatI32(Round(Mul(x as real, r)))
    case Infinite => if x > 0 then I32_MAX else if x < 0 then I32_MIN else 0
    case NotANumber => 0
  }

  /** The product of a coordinate and a finite ratio against the display: zero, the far edge, and order are kept. */
  lemma RatioLaws(x: nat, display: nat, authored: nat)
    requires authored > 0
    ensures var p := Mul(x as real, display as real / authored as real);
            && p >= 0.0
            && (x <= authored ==> p <= display as real)
            && (x == authored ==> p == display as real)
            && (display == authored ==> p == x as real)
  {
    hide Mul;
    var d, a, v := display as real, authored as real, x as real;
    var r := d / a;
    DivideMultiply(d, a);
    MulCommutes(r, a);
    RatioNonNegative(r, a, d);
    MulNonNegative(v, r);
    if x <= authored {
      MulDistributes(a - v, v, r);
      MulNonNegative(a - v, r);
    }
    if display == authored {
      CancelFactor(r, a);
      MulUnits(v);
    }
  }

  lemma RatioNonNegative(r: real, a: real, d: real)
    requires a > 0.0 && d >= 0.0 && Mul(r, a) == d
    ensures r >= 0.0
  {
    hide Mul;
    if r < 0.0 {
      MulPositive(-r, a);
      MulDistributes(-r, r, a);
      MulUnits(a);
    }
  }

  /** What lies on the authored screen is scaled onto the display, corner to corner; at the authored size nothing moves. */
  lemma ScalesOntoDisplay(x: nat, display: nat, authored: nat)
    requires authored > 0 && x <= authored && display <= I32_MAX
    ensures var y := ScaleOne(x, RatioOf(display, authored));
            && 0 <= y <= display
            && (x == 0 ==> y == 0) && (x == authored ==> y == display)
            && (display == authored ==> y == x)
  {
    RatioLaws(x, display, authored);
    var p := Mul(x as real, display as real / authored as real);
    RoundMonotone(0.0, p);
    RoundMonotone(p, display as real);
    RoundInt(0);
    RoundInt(display);
    RoundInt(x);
    if x == 0 {
      MulUnits(display as real / authored as real);
    }
    hide Mul, Round;
  }

  /** Scaling never swaps two coordinates. */
  lemma ScaleMonotone(x: int, y: int, display: nat, authored: nat)
    requires x <= y && authored > 0
    ensures ScaleOne(x, RatioOf(display, authored)) <= ScaleOne(y, RatioOf(display, authored))
  {
    RatioLaws(1, display, authored);
    hide Mul;
    var r := display as real / authored as real;
    MulUnits(r);
    MulDistributes((y - x) as real, x as real, r);
    MulNonNegative((y - x) as real, r);
    RoundMonotone(Mul(x as real, r), Mul(y as real, r));
  }

  class ScaleFactors {
    const keymapW: nat
    const keymapH: nat
    var displayW: nat
    var displayH: nat
    var ratioX: Ratio
    var ratioY: Ratio

    /** The cached ratios are those of these two resolutions. */
    predicate Caches(authored: (nat, nat), display: (nat, nat))
      reads this
    {
      && (keymapW, keymapH) == authored && (displayW, displayH) == display
      && ratioX == RatioOf(display.0, authored.0) && ratioY == RatioOf(display.1, authored.1)
    }

    constructor (authored: (nat, nat), display: (nat, nat))
      ensures Caches(authored, display)
    {
      keymapW, keymapH := authored.0, authored.1;
      displayW, displayH := display.0, display.1;
      ratioX := RatioOf(display.0, authored.0);
      ratioY := RatioOf(display.1, authored.1);
    }

    function Scale(p: Point): Point
      reads this
    {
      Point(ScaleOne(p.x, ratioX), ScaleOne(p.y, ratioY))
    }

    method UpdateResolution(display: (nat, nat))
      modifies this
      ensures Caches((keymapW, keymapH), display)
    {
      displayW := display.0;
      displayH := display.1;
      ratioX := RatioOf(displayW, keymapW);
      ratioY := RatioOf(displayH, keymapH);
    }
  }

  datatype ScaledBinding =
    | ScaledTap(at: Point)
    | ScaledLongPress(at: Point, durationMs: nat)
    | ScaledSwipe(from: Point, to: Point, durationMs: nat)
    | ScaledJoystick(center: Point, radius: int, keys: seq<Key>)
    | ScaledAim(corner1: Point, corner2: Point, sensitivity: real)
  {
    /** The corners' sum wraps around at 32 bits, and halving truncates toward zero. */
    function PrimaryPosition(): Point {
      match this
      case ScaledTap(p) => p
      case ScaledLongPress(p, _) => p
      case ScaledSwipe(p, _, _) => p
      case ScaledJoystick(p, _, _) => p
      case ScaledAim(a, b, _) => Point(TruncDiv(WrapI32(a.x + b.x), 2), TruncDiv(WrapI32(a.y + b.y), 2))
    }

    function TypeName(): string {
      match this
      case ScaledTap(_) => "tap"
      case ScaledLongPress(_, _) => "long_press"
      case ScaledSwipe(_, _, _) => "swipe"
      case ScaledJoystick(_, _, _) => "joystick"
      case ScaledAim(_, _, _) => "aim"
    }
  }

  /** What a binding authored at one resolution is at another. */
  function ScaledFor(b: Binding, authored: (nat, nat), display: (nat, nat)): ScaledBinding {
    var rx, ry := RatioOf(display.0, authored.0), RatioOf(display.1, authored.1);
    var s := (p: Point) => Point(ScaleOne(p.x, rx), ScaleOne(p.y, ry));
    match b
    case Tap(_, p) => ScaledTap(s(p))
    case LongPress(_, p, d) => ScaledLongPress(s(p), d)
    case Swipe(_, f, t, d) => ScaledSwipe(s(f), s(t), d)
    case Joystick(_, _, _, _, c, radius) => ScaledJoystick(s(c), ScaleOne(WrapI32(radius), rx), BindingKeys(b))
    case Aim(_, r, sensitivity) => ScaledAim(s(Point(r.x1, r.y1)), s(Point(r.x2, r.y2)), sensitivity)
  }

  method ScaleBinding(b: Binding, scale: ScaleFactors, ghost authored: (nat, nat), ghost display: (nat, nat))
    returns (r: ScaledBinding)
    requires scale.Caches(authored, display)
    ensures r == ScaledFor(b, authored, display)
  {
    match b {
      case Tap(_, p) => r := ScaledTap(scale.Scale(p));
      case LongPress(_, p, d) => r := ScaledLongPress(scale.Scale(p), d);
      case Swipe(_, from, to, d) => r := ScaledSwipe(scale.Scale(from), scale.Scale(to), d);
      case Joystick(_, _, _, _, center, radius) =>
        r := ScaledJoystick(scale.Scale(center), scale.Scale(Point(WrapI32(radius), 0)).x, BindingKeys(b));
      case Aim(_, region, sensitivity) =>
        r := ScaledAim(scale.Scale(Point(region.x1, region.y1)), scale.Scale(Point(region.x2, region.y2)), sensitivity);
    }
  }

  // ----- the index and the scan it stands for -----

  predicate Binds(bindings: seq<Binding>, i: nat, k: Key) {
    i < |bindings| && k in BindingKeys(bindings[i])
  }

  /** The first binding, in order, that has the key. */
  function FirstWith(bindings: seq<Binding>, k: Key): (i: Option<nat>)
    ensures i.Some? ==> Binds(bindings, i.value, k) && forall j: nat :: j < i.value ==> !Binds(bindings, j, k)
    ensures i.None? ==> forall j: nat :: !Binds(bindings, j, k)
  {
    if bindings == [] then None
    else
      var last := |bindings| - 1;
      var before := FirstWith(bindings[..last], k);
      assert forall j: nat :: Binds(bindings, j, k) <==> Binds(bindings[..last], j, k) || (j == last && Binds(bindings, last, k));
      if before.Some? then before else if k in BindingKeys(bindings[last]) then Some(last) else None
  }

  ghost predicate Indexes(index: map<Key, nat>, bindings: seq<Binding>) {
    && (forall k :: k in index ==> Binds(bindings, index[k], k))
    && (forall i: nat, k :: Binds(bindings, i, k) ==> k in index)
  }

  /** With every key bound once, a key belongs to one binding only. */
  lemma OneBindingPerKey(bindings: seq<Binding>, i: nat, j: nat, k: Key)
    requires Distinct(AllKeys(bindings)) && Binds(bindings, i, k) && Binds(bindings, j, k)
    ensures i == j
  {
    if i < j {
      TwiceInKeys(bindings, i, j, k);
    } else if j < i {
      TwiceInKeys(bindings, j, i, k);
    }
  }

  lemma BoundBefore(bindings: seq<Binding>, i: nat, j: nat, k: Key)
    requires i < j <= |bindings| && Binds(bindings, i, k)
    ensures k in AllKeys(bindings[..j])
  {
    KeysOfPart(bindings[..j], i, k);
  }

  lemma TwiceInKeys(bindings: seq<Binding>, i: nat, j: nat, k: Key)
    requires i < j && Binds(bindings, i, k) && Binds(bindings, j, k)
    ensures !Distinct(AllKeys(bindings))
  {
    hide AllKeys, BindingKeys, Distinct;
    BoundBefore(bindings, i, j, k);
    SharedKey(AllKeys(bindings[..j]), BindingKeys(bindings[j]), k);
    AllKeysSnoc(bindings, j);
    PartOfAllKeys(bindings, j + 1);
    if Distinct(AllKeys(bindings)) {
      DistinctPart(AllKeys(bindings[..j + 1]), AllKeys(bindings));
    }
  }

  lemma SharedKey(a: seq<Key>, b: seq<Key>, k: Key)
    requires k in a && k in b
    ensures !Distinct(a + b)
  {
    var m :| 0 <= m < |a| && a[m] == k;
    var n :| 0 <= n < |b| && b[n] == k;
    assert (a + b)[m] == k && (a + b)[|a| + n] == k;
  }

  method BuildIndex(bindings: seq<Binding>) returns (index: map<Key, nat>)
    ensures Indexes(index, bindings)
  {
    index := map[];
    var i := 0;
    while i < |bindings|
      invariant 0 <= i <= |bindings| && Indexes(index, bindings[..i])
    {
      var keys := BindingKeys(bindings[i]);
      ghost var before := index;
      var n := 0;
      while n < |keys|
        invariant 0 <= n <= |keys|
        invariant forall k :: k in index <==> k in before || k in keys[..n]
        invariant forall k :: k in index ==> index[k] == if k in keys[..n] then i else before[k]
      {
        assert keys[..n + 1] == keys[..n] + [keys[n]];
        index := index[keys[n] := i];
        n := n + 1;
      }
      assert keys[..n] == keys;
      IndexGrows(before, index, bindings, i);
      i := i + 1;
    }
    assert bindings[..i] == bindings;
  }

  lemma IndexGrows(before: map<Key, nat>, index: map<Key, nat>, bindings: seq<Binding>, i: nat)
    requires i < |bindings| && Indexes(before, bindings[..i])
    requires forall k :: k in index <==> k in before || k in BindingKeys(bindings[i])
    requires forall k :: k in index ==> index[k] == if k in BindingKeys(bindings[i]) then i else before[k]
    ensures Indexes(index, bindings[..i + 1])
  {
    hide BindingKeys;
    forall k | k in index
      ensures Binds(bindings[..i + 1], index[k], k)
    {
      assert k !in BindingKeys(bindings[i]) ==> Binds(bindings[..i], before[k], k);
    }
    var part := bindings[..i + 1];
    forall j: nat, k | Binds(part, j, k)
      ensures k in index
    {
      assert j < i ==> Binds(bindings[..i], j, k);
    }
  }

  /** The reference: scan the bindings for the key and scale what is found. */
  function LinearLookup(keymap: Keymap, display: (nat, nat), k: Key): Option<ScaledBinding> {
    var i := FirstWith(keymap.bindings, k);
    if i.Some? then Some(ScaledFor(keymap.bindings[i.value], keymap.resolution, display)) else None
  }

  // ----- the engine -----

  datatype OverlayHint = OverlayHint(key: Key, position: Point, typeName: string)

  datatype ActiveKeymap = ActiveKeymap(keymap: Keymap, scale: ScaleFactors, keyIndex: map<Key, nat>)

  /** The hint stands where looking the key up would touch. */
  ghost predicate HintFits(h: OverlayHint, keymap: Keymap, display: (nat, nat)) {
    var b := LinearLookup(keymap, display, h.key);
    b.Some? && h.position == b.value.PrimaryPosition() && h.typeName == b.value.TypeName()
  }

  /** One hint per key, in order. */
  ghost predicate HintsFor(hints: seq<OverlayHint>, keys: seq<Key>, keymap: Keymap, display: (nat, nat)) {
    && |hints| == |keys|
    && forall i :: 0 <= i < |hints| ==> hints[i].key == keys[i] && HintFits(hints[i], keymap, display)
  }

  class KeymapEngine {
    var active: Option<ActiveKeymap>
    /** The display resolution last given. */
    ghost var display: (nat, nat)

    ghost predicate Valid()
      reads this, if active.Some? then {active.value.scale} else {}
    {
      active.Some? ==>
        && active.value.scale.Caches(active.value.keymap.resolution, display)
        && ValidBindings(active.value.keymap.bindings)
        && Indexes(active.value.keyIndex, active.value.keymap.bindings)
    }

    constructor ()
      ensures Valid() && active.None?
    {
      active, display := None, (0, 0);
    }

    /** A failed load changes nothing; what is loaded depends on the text and the resolution alone. */
    method LoadStr(parsed: Result<Keymap, KeymapError>, display: (nat, nat)) returns (r: Result<(), KeymapError>)
      requires Valid()
      modifies this
      ensures Valid()
      ensures r.Success? <==> parsed.Success? && ValidBindings(parsed.value.bindings)
      ensures r.Success? ==> active.Some? && active.value.keymap == parsed.value && this.display == display
      ensures r.Success? ==> fresh(active.value.scale)
      ensures r.Failure? ==> active == old(active) && this.display == old(this.display)
      ensures r.Failure? ==> if parsed.Failure? then r.error == parsed.error else Explains(r.error, parsed.value.bindings)
    {
      if parsed.Failure? {
        return Failure(parsed.error);
      }
      var keymap := parsed.value;
      hide ValidBindings, Explains, Indexes;
      var valid := ValidateKeymap(keymap);
      if valid.Failure? {
        return Failure(valid.error);
      }
      var scale := new ScaleFactors(keymap.resolution, display);
      var index := BuildIndex(keymap.bindings);
      active := Some(ActiveKeymap(keymap, scale, index));
      this.display := display;
      r := Success(());
    }

    method Unload()
      modifies this
      ensures Valid() && active.None?
    {
      active := None;
    }

    /** The index answers as the scan does. */
    method Lookup(k: Key) returns (r: Option<ScaledBinding>)
      requires Valid()
      ensures r == if active.None? then None else LinearLookup(active.value.keymap, display, k)
    {
      if active.None? {
        return None;
      }
      var a := active.value;
      var bindings := a.keymap.bindings;
      ghost var first := FirstWith(bindings, k);
      if k !in a.keyIndex {
        return None;
      }
      var i := a.keyIndex[k];
      assert Binds(bindings, i, k) && first.Some?;
      OneBindingPerKey(bindings, i, first.value, k);
      hide ScaledFor;
      var scaled := ScaleBinding(bindings[i], a.scale, a.keymap.resolution, display);
      r := Some(scaled);
    }

    method UpdateResolution(resolution: (nat, nat))
      requires Valid()
      modifies this, if active.Some? then {active.value.scale} else {}
      ensures Valid() && active == old(active)
      ensures active.Some? ==> display == resolution
    {
      if active.Some? {
        active.value.scale.UpdateResolution(resolution);
        display := resolution;
      }
    }

    /** Every bound key once, in order, where looking it up would touch. */
    method OverlayHints() returns (hints: seq<OverlayHint>)
      requires Valid()
      ensures active.None? ==> hints == []
      ensures active.Some? ==>
                var keys := AllKeys(active.value.keymap.bindings);
                Distinct(keys) && HintsFor(hints, keys, active.value.keymap, display)
    {
      hints := [];
      if active.None? {
        return;
      }
      var keymap := active.value.keymap;
      var bindings := keymap.bindings;
      assert AllKeys(bindings[..0]) == [] && Distinct(AllKeys(bindings));
      NoHints(keymap, display);
      hide HintsFor, HintFits, ScaledFor, Indexes, AllKeys, AllKnown, WellShaped, Distinct, BindingKeys;
      var i := 0;
      while i < |bindings|
        invariant 0 <= i <= |bindings|
        invariant HintsFor(hints, AllKeys(bindings[..i]), keymap, display)
      {
        var scaled := ScaleBinding(bindings[i], active.value.scale, keymap.resolution, display);
        var more := HintsOf(bindings[i], scaled);
        OwnHintsFit(keymap, display, i, more);
        AllKeysSnoc(bindings, i);
        HintsJoin(hints, AllKeys(bindings[..i]), more, BindingKeys(bindings[i]), keymap, display);
        hints := hints + more;
        i := i + 1;
      }
      assert bindings[..i] == bindings;
    }
  }

  lemma NoHints(keymap: Keymap, display: (nat, nat))
    ensures HintsFor([], [], keymap, display)
  {
  }

  lemma HintsJoin(a: seq<OverlayHint>, ka: seq<Key>, b: seq<OverlayHint>, kb: seq<Key>, keymap: Keymap, display: (nat, nat))
    requires HintsFor(a, ka, keymap, display) && HintsFor(b, kb, keymap, display)
    ensures HintsFor(a + b, ka + kb, keymap, display)
  {
    hide HintFits;
  }

  method HintsOf(b: Binding, scaled: ScaledBinding) returns (hints: seq<OverlayHint>)
    ensures |hints| == |BindingKeys(b)|
    ensures forall n :: 0 <= n < |hints| ==> hints[n] == OverlayHint(BindingKeys(b)[n], scaled.PrimaryPosition(), scaled.TypeName())
  {
    var keys := BindingKeys(b);
    hints := [];
    var n := 0;
    while n < |keys|
      invariant 0 <= n <= |keys| && |hints| == n
      invariant forall m :: 0 <= m < n ==> hints[m] == OverlayHint(keys[m], scaled.PrimaryPosition(), scaled.TypeName())
    {
      hints := hints + [OverlayHint(keys[n], scaled.PrimaryPosition(), scaled.TypeName())];
      n := n + 1;
    }
  }

  lemma OwnHintsFit(keymap: Keymap, display: (nat, nat), i: nat, hints: seq<OverlayHint>)
    requires Distinct(AllKeys(keymap.bindings)) && i < |keymap.bindings|
    requires |hints| == |BindingKeys(keymap.bindings[i])|
    requires var s := ScaledFor(keymap.bindings[i], keymap.resolution, display);
             forall n :: 0 <= n < |hints| ==> hints[n] == OverlayHint(BindingKeys(keymap.bindings[i])[n], s.PrimaryPosition(), s.TypeName())
    ensures HintsFor(hints, BindingKeys(keymap.bindings[i]), keymap, display)
  {
    hide ScaledFor, BindingKeys;
    forall n | 0 <= n < |hints|
      ensures HintFits(hints[n], keymap, display)
    {
      var k := hints[n].key;
      var first := FirstWith(keymap.bindings, k);
      assert Binds(keymap.bindings, i, k);
      OneBindingPerKey(keymap.bindings, i, first.value, k);
    }
  }

  function LastOf(first: (nat, nat), later: seq<(nat, nat)>): (nat, nat) {
    if later == [] then first else later[|later| - 1]
  }

  /** However often the resolution changes, the engine answers as one freshly loaded at the last of them. */
  method UpdatesLikeFreshLoad(keymap: Keymap, first: (nat, nat), later: seq<(nat, nat)>, k: Key)
    returns (updated: Option<ScaledBinding>, reloaded: Option<ScaledBinding>)
    ensures updated == reloaded
    ensures updated.Some? <==> ValidBindings(keymap.bindings) && k in AllKeys(keymap.bindings)
  {
    hide ValidBindings, Indexes, AllKeys, Explains;
    var a := new KeymapEngine();
    var loaded := a.LoadStr(Success(keymap), first);
    var i := 0;
    while i < |later|
      invariant 0 <= i <= |later| && a.Valid() && fresh(a) && (a.active.Some? ==> fresh(a.active.value.scale))
      invariant a.active.Some? <==> ValidBindings(keymap.bindings)
      invariant a.active.Some? ==> a.active.value.keymap == keymap && a.display == LastOf(first, later[..i])
    {
      a.UpdateResolution(later[i]);
      i := i + 1;
    }
    assert later[..i] == later;
    var b := new KeymapEngine();
    loaded := b.LoadStr(Success(keymap), LastOf(first, later));
    updated := a.Lookup(k);
    reloaded := b.Lookup(k);
    BoundIffFound(keymap.bindings, k);
  }

  lemma BoundIffFound(bindings: seq<Binding>, k: Key)
    ensures FirstWith(bindings, k).Some? <==> k in AllKeys(bindings)
  {
    if FirstWith(bindings, k).Some? {
      KeysOfPart(bindings, FirstWith(bindings, k).value, k);
    }
    if k in AllKeys(bindings) {
      BoundSomewhere(bindings, k);
    }
  }

  lemma {:induction false} BoundSomewhere(bindings: seq<Binding>, k: Key)
    requires k in AllKeys(bindings)
    ensures exists i: nat :: Binds(bindings, i, k)
  {
    hide BindingKeys;
    var last := |bindings| - 1;
    if k in BindingKeys(bindings[last]) {
      assert Binds(bindings, last, k);
    } else {
      BoundSomewhere(bindings[..last], k);
      var i: nat :| Binds(bindings[..last], i, k);
      assert Binds(bindings, i, k);
    }
  }

  // ----- what scaling does to a binding -----

  /** Of all integers, the scaled coordinate is nearest to the exact proportion: x is to the authored size as it is to the display. */
  lemma ScalesInProportion(x: int, display: nat, authored: nat)
    requires authored > 0
    ensures var y := ScaleOne(x, RatioOf(display, authored));
            I32_MIN < y < I32_MAX ==> 2 * (y * authored - x * display) <= authored && 2 * (x * display - y * authored) <= authored
  {
    var a, r := authored as real, display as real / authored as real;
    var p := Mul(x as real, r);
    var y := ScaleOne(x, RatioOf(display, authored));
    RoundNear(p);
    DivideMultiply(display as real, a);
    MulAssociates(x as real, r, a);
    var off := y as real - p;
    assert y == SatI32(Round(p));
    if I32_MIN < y < I32_MAX {
      assert y == Round(p) && -0.5 <= off <= 0.5;
      HalfOf(off, a);
      hide Mul;
      MulDistributes(off, p, a);
      IntegerProducts(y, x, authored, display);
    }
  }

  lemma HalfOf(off: real, a: real)
    requires -0.5 <= off <= 0.5 && a > 0.0
    ensures -a <= 2.0 * Mul(off, a) <= a
  {
    MulNonNegative(0.5 - off, a);
    MulNonNegative(off + 0.5, a);
  }

  lemma IntegerProducts(y: int, x: int, authored: nat, display: nat)
    ensures Mul(y as real, authored as real) == (y * authored) as real
    ensures Mul(x as real, display as real) == (x * display) as real
  {
  }

  /** A binding as it was authored. */
  function Unscaled(b: Binding): ScaledBinding {
    match b
    case Tap(_, p) => ScaledTap(p)
    case LongPress(_, p, d) => ScaledLongPress(p, d)
    case Swipe(_, from, to, d) => ScaledSwipe(from, to, d)
    case Joystick(_, _, _, _, center, radius) => ScaledJoystick(center, radius, BindingKeys(b))
    case Aim(_, r, sensitivity) => ScaledAim(Point(r.x1, r.y1), Point(r.x2, r.y2), sensitivity)
  }

  predicate Fits32(n: int) {
    I32_MIN <= n <= I32_MAX
  }

  lemma SameSizeSameCoordinate(x: int, size: nat)
    requires size > 0 && Fits32(x)
    ensures ScaleOne(x, RatioOf(size, size)) == x
  {
    RatioLaws(1, size, size);
    var r := size as real / size as real;
    assert Mul(1.0, r) == 1.0;
    MulUnits(r);
    assert r == 1.0;
    MulUnits(x as real);
    RoundInt(x);
  }

  /** On a display of the authored size every binding is as authored: positions, radius, durations, keys and sensitivity. */
  lemma AuthoredSizeKeeps(b: Binding, size: (nat, nat))
    requires size.0 > 0 && size.1 > 0
    requires (forall p :: p in Positions(b) ==> Fits32(p.x) && Fits32(p.y)) && (b.Joystick? ==> Fits32(b.radius))
    ensures ScaledFor(b, size, size) == Unscaled(b)
  {
    forall p | p in Positions(b)
      ensures ScaleOne(p.x, RatioOf(size.0, size.0)) == p.x && ScaleOne(p.y, RatioOf(size.1, size.1)) == p.y
    {
      SameSizeSameCoordinate(p.x, size.0);
      SameSizeSameCoordinate(p.y, size.1);
    }
    if b.Joystick? {
      SameSizeSameCoordinate(b.radius, size.0);
    }
    hide ScaleOne, RatioOf;
    var ps := Positions(b);
    assert ps[0] in ps && ps[|ps| - 1] in ps;
  }

  /** Durations, keys and sensitivity are the same on every display, and the radius grows with the width alone, edge to edge. */
  lemma OnlySizesScale(b: Binding, authored: (nat, nat), one: (nat, nat), other: (nat, nat))
    ensures var s, t := ScaledFor(b, authored, one), ScaledFor(b, authored, other);
            match b
            case Tap(_, _) => s.ScaledTap?
            case LongPress(_, _, d) => s.durationMs == t.durationMs == d
            case Swipe(_, _, _, d) => s.durationMs == t.durationMs == d
            case Joystick(_, _, _, _, _, radius) =>
              && s.keys == t.keys == BindingKeys(b)
              && (one.0 == other.0 ==> s.radius == t.radius)
              && (0 < authored.0 && 0 <= radius <= authored.0 && authored.0 <= I32_MAX && one.0 <= I32_MAX ==>
                    && 0 <= s.radius <= one.0 && (radius == authored.0 ==> s.radius == one.0))
            case Aim(_, _, sensitivity) => s.sensitivity == t.sensitivity == sensitivity
  {
    if b.Joystick? && 0 < authored.0 && 0 <= b.radius <= authored.0 && one.0 <= I32_MAX {
      ScalesOntoDisplay(b.radius, one.0, authored.0);
    }
    hide ScaleOne, RatioOf;
  }

  /** A hint stands on its binding's first position, or for aim in the middle of the region, to within half a pixel. */
  lemma HintStandsOn(s: ScaledBinding)
    ensures !s.ScaledAim? ==> s.PrimaryPosition() == ScaledPositions(s)[0]
    ensures s.ScaledAim? && Fits32(s.corner1.x + s.corner2.x) && Fits32(s.corner1.y + s.corner2.y) ==>
              var p := s.PrimaryPosition();
              && -1 <= 2 * p.x - (s.corner1.x + s.corner2.x) <= 1
              && -1 <= 2 * p.y - (s.corner1.y + s.corner2.y) <= 1
  {
  }

  // ----- keymaps authored for a screen of no width or height -----

  function Positions(b: Binding): (ps: seq<Point>)
    ensures ps != []
  {
    match b
    case Tap(_, p) => [p]
    case LongPress(_, p, _) => [p]
    case Swipe(_, from, to, _) => [from, to]
    case Joystick(_, _, _, _, center, _) => [center]
    case Aim(_, r, _) => [Point(r.x1, r.y1), Point(r.x2, r.y2)]
  }

  function ScaledPositions(s: ScaledBinding): seq<Point> {
    match s
    case ScaledTap(p) => [p]
    case ScaledLongPress(p, _) => [p]
    case ScaledSwipe(from, to, _) => [from, to]
    case ScaledJoystick(center, _, _) => [center]
    case ScaledAim(a, b, _) => [a, b]
  }

  lemma PositionsScale(b: Binding, authored: (nat, nat), display: (nat, nat))
    ensures var ps, qs := Positions(b), ScaledPositions(ScaledFor(b, authored, display));
            && |qs| == |ps|
            && forall i :: 0 <= i < |ps| ==>
                 qs[i] == Point(ScaleOne(ps[i].x, RatioOf(display.0, authored.0)), ScaleOne(ps[i].y, RatioOf(display.1, authored.1)))
  {
    hide ScaleOne, RatioOf;
  }

  predicate Within(p: Point, size: (nat, nat)) {
    0 <= p.x <= size.0 && 0 <= p.y <= size.1
  }

  /** The bound a coordinate is thrown to, by its sign. */
  function Thrown(x: int): int {
    if x > 0 then I32_MAX else if x < 0 then I32_MIN else 0
  }

  /** Along an axis of size zero every position of every binding is thrown to a bound of the 32-bit range. */
  lemma ZeroSizeSaturates(b: Binding, authored: (nat, nat), display: (nat, nat), i: nat)
    requires i < |Positions(b)| && display.0 > 0 && display.1 > 0
    ensures var qs := ScaledPositions(ScaledFor(b, authored, display));
            && i < |qs|
            && (authored.0 == 0 ==> qs[i].x == Thrown(Positions(b)[i].x))
            && (authored.1 == 0 ==> qs[i].y == Thrown(Positions(b)[i].y))
  {
    PositionsScale(b, authored, display);
  }

  lemma AxisLandsIff(x: int, display: nat, authored: nat)
    requires 0 < display < I32_MAX && x >= 1 && (authored > 0 ==> x <= authored)
    ensures 0 <= ScaleOne(x, RatioOf(display, authored)) <= display <==> authored > 0
  {
    if authored > 0 {
      ScalesOntoDisplay(x, display, authored);
    }
  }

  /**
   A binding, of any kind, whose positions are not on the top or left edge and on the authored screen as far
   as it has a size: all its positions land on the display exactly if the authored screen has a size on both axes.
   */
  lemma LandsOnDisplayIff(b: Binding, authored: (nat, nat), display: (nat, nat))
    requires 0 < display.0 < I32_MAX && 0 < display.1 < I32_MAX
    requires forall i :: 0 <= i < |Positions(b)| ==>
               var p := Positions(b)[i];
               && p.x >= 1 && p.y >= 1
               && (authored.0 > 0 ==> p.x <= authored.0) && (authored.1 > 0 ==> p.y <= authored.1)
    ensures (forall p :: p in ScaledPositions(ScaledFor(b, authored, display)) ==> Within(p, display))
       <==> authored.0 > 0 && authored.1 > 0
  {
    var ps, qs := Positions(b), ScaledPositions(ScaledFor(b, authored, display));
    PositionsScale(b, authored, display);
    hide ScaleOne, RatioOf, ScaledFor, Positions, ScaledPositions;
    forall i | 0 <= i < |ps|
      ensures Within(qs[i], display) <==> authored.0 > 0 && authored.1 > 0
    {
      AxisLandsIff(ps[i].x, display.0, authored.0);
      AxisLandsIff(ps[i].y, display.1, authored.1);
    }
    assert qs[0] in qs;
  }

  /** Loading looks at the bindings only: a keymap authored for any size, zero included, loads exactly if they are valid. */
  method LoadsAtAnySize(keymap: Keymap, display: (nat, nat), k: Key) returns (loaded: bool, hit: Option<ScaledBinding>)
    ensures loaded <==> ValidBindings(keymap.bindings)
    ensures hit == if loaded then LinearLookup(keymap, display, k) else None
  {
    hide ValidBindings, Indexes, LinearLookup, Explains;
    var engine := new KeymapEngine();
    var r := engine.LoadStr(Success(keymap), display);
    loaded := r.Success?;
    hit := engine.Lookup(k);
  }

  /** Such a keymap: one tap on a screen of no width. It loads, and the tap goes to the end of the 32-bit range. */
  method ZeroWidthLoads(height: nat, display: (nat, nat)) returns (loaded: bool, hit: Option<ScaledBinding>)
    requires display.0 > 0
    ensures loaded && hit.Some? && hit.value.ScaledTap? && hit.value.at.x == I32_MAX
  {
    var bindings := [Tap("f", Point(1, 1))];
    OneTapIsValid(bindings);
    loaded, hit := LoadsAtAnySize(Keymap("", "", (0, height), bindings), display, "f");
    assert Binds(bindings, 0, "f");
    hide Known;
  }

  lemma OneTapIsValid(bindings: seq<Binding>)
    requires bindings == [Tap("f", Point(1, 1))]
    ensures ValidBindings(bindings)
  {
    assert bindings[..0] == [] && AllKeys([]) == [];
    assert AllKeys(bindings) == ["f"];
  }
}
