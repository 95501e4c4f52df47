/** The host surface, the guest screen scaled and centred in it, and the map from the one to the other. */
module Coordinate {
  import opened Numbers
  import opened Products

  /** Scale in host pixels per guest pixel, and the bars left and above. */
  datatype Geometry = Geometry(scale: real, letterboxX: real, letterboxY: real)

  function Smaller(a: real, b: real): real {
    if a < b then a else b
  }

  function Fit(guestW: int, guestH: int, hostW: real, hostH: real): Geometry {
    if guestW <= 0 || guestH <= 0 then Geometry(1.0, 0.0, 0.0)
    else
      var scale := Smaller(hostW / guestW as real, hostH / guestH as real);
      Geometry(scale, (hostW - Mul(guestW as real, scale)) / 2.0, (hostH - Mul(guestH as real, scale)) / 2.0)
  }

  class DisplayMetrics {
    var guestWidth: int
    var guestHeight: int
    var hostWidth: real
    var hostHeight: real
    var scale: real
    var letterboxX: real
    var letterboxY: real

    function Now(): Geometry
      reads this
    {
      Geometry(scale, letterboxX, letterboxY)
    }

    /** The derived fields belong to the current sizes. */
    predicate Current()
      reads this
    {
      Now() == Fit(guestWidth, guestHeight, hostWidth, hostHeight)
    }

    constructor (guestWidth: int, guestHeight: int, hostWidth: real, hostHeight: real)
      ensures this.guestWidth == guestWidth && this.guestHeight == guestHeight
      ensures this.hostWidth == hostWidth && this.hostHeight == hostHeight
      ensures Current()
    {
      this.guestWidth, this.guestHeight := guestWidth, guestHeight;
      this.hostWidth, this.hostHeight := hostWidth, hostHeight;
      scale, letterboxX, letterboxY := 1.0, 0.0, 0.0;
      new;
      Recalculate();
    }

    method Recalculate()
      modifies `scale, `letterboxX, `letterboxY
      ensures Current()
    {
      if guestWidth <= 0 || guestHeight <= 0 {
        scale := 1.0;
        letterboxX := 0.0;
        letterboxY := 0.0;
        return;
      }
      var scaleX := hostWidth / guestWidth as real;
      var scaleY := hostHeight / guestHeight as real;
      scale := Smaller(scaleX, scaleY);
      var renderedWidth := Mul(guestWidth as real, scale);
      var renderedHeight := Mul(guestHeight as real, scale);
      letterboxX := (hostWidth - renderedWidth) / 2.0;
      letterboxY := (hostHeight - renderedHeight) / 2.0;
    }

    method UpdateHost(width: real, height: real)
      modifies this
      ensures Current() && hostWidth == width && hostHeight == height
      ensures guestWidth == old(guestWidth) && guestHeight == old(guestHeight)
    {
      hostWidth := width;
      hostHeight := height;
      Recalculate();
    }

    method UpdateGuest(width: int, height: int)
      modifies this
      ensures Current() && guestWidth == width && guestHeight == height
      ensures hostWidth == old(hostWidth) && hostHeight == old(hostHeight)
    {
      guestWidth := width;
      guestHeight := height;
      Recalculate();
    }

    /** The clamp to the guest's bounds panics unless the guest has at least one pixel on each axis. */
    function MapHostToGuest(x: real, y: real): (p: (int, int))
      requires guestWidth >= 1 && guestHeight >= 1
      reads this
      ensures 0 <= p.0 < guestWidth && 0 <= p.1 < guestHeight
    {
      (MapAxis(x, letterboxX, scale, guestWidth), MapAxis(y, letterboxY, scale, guestHeight))
    }
  }

  /** A quotient rounded and cast to 32 bits; by zero it is an infinity or no number, which the cast turns into a bound or 0. */
  function QuotientToI32(a: real, s: real): int {
    if s == 0.0 then if a > 0.0 then I32_MAX else if a < 0.0 then I32_MIN else 0
    else SatI32(Round(a / s))
  }

  function MapAxis(host: real, letterbox: real, scale: real, guest: int): (g: int)
    requires guest >= 1
    ensures 0 <= g < guest
  {
    Clamp(QuotientToI32(host - letterbox, scale), 0, guest - 1)
  }

  /** Where guest pixel g is drawn on the host, on one axis. */
  function DrawnAt(g: int, letterbox: real, scale: real): real {
    letterbox + Mul(g as real, scale)
  }

  // ----- the fit -----

  lemma AxisFits(guest: int, host: real, s: real)
    requires guest >= 1
    ensures s == host / guest as real ==> Mul(guest as real, s) == host
    ensures s <= host / guest as real <==> Mul(guest as real, s) <= host
  {
    hide Mul;
    var n, t := guest as real, host / guest as real;
    DivideMultiply(host, n);
    MulCommutes(t, n);
    MulCommutes(s, n);
    MulDistributes(t - s, s, n);
    MulUnits(n);
    if s < t {
      MulPositive(t - s, n);
    } else if t < s {
      MulPositive(s - t, n);
      MulDistributes(s - t, t, n);
    }
  }

  /** The scale is the largest at which the guest fits the host on both axes. */
  lemma FitIsLargest(guestW: int, guestH: int, hostW: real, hostH: real, s: real)
    requires guestW >= 1 && guestH >= 1
    ensures s <= Fit(guestW, guestH, hostW, hostH).scale <==> Mul(guestW as real, s) <= hostW && Mul(guestH as real, s) <= hostH
  {
    hide Mul;
    AxisFits(guestW, hostW, s);
    AxisFits(guestH, hostH, s);
  }

  /** The drawn guest lies inside the host, centred on each axis, and touches the border on at least one. */
  lemma FitIsCentred(guestW: int, guestH: int, hostW: real, hostH: real)
    requires guestW >= 1 && guestH >= 1
    ensures var f := Fit(guestW, guestH, hostW, hostH);
            && f.letterboxX >= 0.0 && f.letterboxY >= 0.0
            && (f.letterboxX == 0.0 || f.letterboxY == 0.0)
            && f.letterboxX + Mul(guestW as real, f.scale) + f.letterboxX == hostW
            && f.letterboxY + Mul(guestH as real, f.scale) + f.letterboxY == hostH
            && (hostW > 0.0 && hostH > 0.0 ==> f.scale > 0.0)
  {
    hide Mul;
    var f := Fit(guestW, guestH, hostW, hostH);
    AxisFits(guestW, hostW, f.scale);
    AxisFits(guestH, hostH, f.scale);
    AxisFits(guestW, hostW, 0.0);
    AxisFits(guestH, hostH, 0.0);
    MulUnits(guestW as real);
    MulUnits(guestH as real);
  }

  // ----- the map -----

  lemma QuotientMonotone(a: real, b: real, s: real)
    requires a <= b && s > 0.0
    ensures a / s <= b / s
  {
    hide Mul;
    DivideMultiply(a, s);
    DivideMultiply(b, s);
    if a / s > b / s {
      MulPositive(a / s - b / s, s);
      MulDistributes(a / s - b / s, b / s, s);
    }
  }

  /** Moving right or down on the host never moves left or up on the guest. */
  lemma MapMonotone(a: real, b: real, letterbox: real, scale: real, guest: int)
    requires a <= b && scale >= 0.0 && guest >= 1
    ensures MapAxis(a, letterbox, scale, guest) <= MapAxis(b, letterbox, scale, guest)
  {
    if scale > 0.0 {
      QuotientMonotone(a - letterbox, b - letterbox, scale);
      RoundMonotone((a - letterbox) / scale, (b - letterbox) / scale);
    }
  }

  /** On a host surface without extent every position is at one of the guest's edges, by the side of the bar it lies on. */
  lemma ZeroScaleMaps(host: real, letterbox: real, guest: int)
    requires 1 <= guest <= I32_MAX
    ensures MapAxis(host, letterbox, 0.0, guest) == if host > letterbox then guest - 1 else 0
  {
  }

  lemma DistanceScales(q: real, g: real, letterbox: real, scale: real)
    requires scale > 0.0
    ensures Distance(letterbox + Mul(q, scale), letterbox + Mul(g, scale)) == Mul(Distance(q, g), scale)
  {
    hide Mul;
    MulDistributes(q - g, g, scale);
    MulDistributes(g - q, q, scale);
    if q < g {
      MulPositive(g - q, scale);
    } else if g < q {
      MulPositive(q - g, scale);
    } else {
      MulUnits(scale);
    }
  }

  /** Of all guest pixels, none is drawn nearer to the host position than the one it is mapped to. */
  lemma MapsToNearest(host: real, letterbox: real, scale: real, guest: int, g: int)
    requires scale > 0.0 && 0 <= g < guest <= I32_MAX
    ensures var m := MapAxis(host, letterbox, scale, guest);
            Distance(host, DrawnAt(m, letterbox, scale)) <= Distance(host, DrawnAt(g, letterbox, scale))
  {
    var q, m := (host - letterbox) / scale, MapAxis(host, letterbox, scale, guest);
    NearestInt(q, guest, g);
    assert Clamp(SatI32(Round(q)), 0, guest - 1) == Clamp(Round(q), 0, guest - 1);
    hide Mul, Distance, MapAxis;
    DivideMultiply(host - letterbox, scale);
    DistanceScales(q, m as real, letterbox, scale);
    DistanceScales(q, g as real, letterbox, scale);
    var d, e := Distance(q, m as real), Distance(q, g as real);
    MulDistributes(e - d, d, scale);
    MulNonNegative(e - d, scale);
  }

  /** Mapping undoes drawing for every guest pixel. */
  lemma MapUndoesDrawing(letterbox: real, scale: real, guest: int, g: int)
    requires scale > 0.0 && 0 <= g < guest <= I32_MAX
    ensures MapAxis(DrawnAt(g, letterbox, scale), letterbox, scale, guest) == g
  {
    var host := DrawnAt(g, letterbox, scale);
    MapsToNearest(host, letterbox, scale, guest, g);
    hide Mul, MapAxis;
    var m := MapAxis(host, letterbox, scale, guest);
    MulDistributes((m - g) as real, g as real, scale);
    MulDistributes((g - m) as real, m as real, scale);
    if m > g {
      MulPositive((m - g) as real, scale);
    } else if m < g {
      MulPositive((g - m) as real, scale);
    }
  }

  /** After any updates that leave positive sizes, clicking where a guest pixel is drawn hits that pixel. */
  lemma ClicksHitWhatIsDrawn(m: DisplayMetrics, gx: int, gy: int)
    requires m.Current() && m.hostWidth > 0.0 && m.hostHeight > 0.0
    requires 0 <= gx < m.guestWidth <= I32_MAX && 0 <= gy < m.guestHeight <= I32_MAX
    ensures m.MapHostToGuest(DrawnAt(gx, m.letterboxX, m.scale), DrawnAt(gy, m.letterboxY, m.scale)) == (gx, gy)
  {
    hide Mul, Fit;
    FitIsCentred(m.guestWidth, m.guestHeight, m.hostWidth, m.hostHeight);
    MapUndoesDrawing(m.letterboxX, m.scale, m.guestWidth, gx);
    MapUndoesDrawing(m.letterboxY, m.scale, m.guestHeight, gy);
  }
}
