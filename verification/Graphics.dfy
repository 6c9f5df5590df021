/** C2DGraphics's line and circle functions, setting pixels of the buffer. */
module Graphics {
  import opened Basics
  import opened Raster

  type Color = nat

  class C2DGraphics {
    const width: nat
    const height: nat
    const buffer: array2<Color>    // buffer[y, x]

    ghost predicate Valid() {
      buffer.Length0 == height && buffer.Length1 == width && width <= MAX_SIDE && height <= MAX_SIDE
    }

    constructor (width: nat, height: nat, background: Color)
      requires width <= MAX_SIDE && height <= MAX_SIDE
      ensures Valid() && this.width == width && this.height == height && fresh(buffer)
    {
      this.width, this.height := width, height;
      buffer := new Color[height, width]((_, _) => background);
    }

    method SetPixel(x: int, y: int, color: Color)
      requires Valid() && 0 <= x < width && 0 <= y < height
      modifies buffer
      ensures buffer[y, x] == color
      ensures forall px, py :: 0 <= px < width && 0 <= py < height && !(px == x && py == y) ==> buffer[py, px] == old(buffer[py, px])
    {
      buffer[y, x] := color;
    }

    /** Exactly the points of the line get the colour, all of them on the screen. */
    method DrawLine(nX1: nat, nY1: nat, nX2: nat, nY2: nat, color: Color)
      requires Valid()
      modifies buffer
      ensures var on := nX1 < width && nY1 < height && nX2 < width && nY2 < height;
              var dx, dy := nX2 - nX1, nY2 - nY1;
              forall px, py :: 0 <= px < width && 0 <= py < height ==>
                buffer[py, px] == if on && OnLine(nX1, nY1, dx, dy, Major(dx, dy), px, py) then color else old(buffer[py, px])
    {
      if nX1 >= width || nY1 >= height || nX2 >= width || nY2 >= height { return; }
      var dx: int, dy: int := nX2 - nX1, nY2 - nY1;
      var dxabs: nat := if dx > 0 then dx else -dx;
      var dyabs: nat := if dy > 0 then dy else -dy;
      LineInBox(nX1, nY1, dx, dy, 0);
      if dxabs >= dyabs {
        DrawFlat(nX1, nY1, dx, dy, dxabs, dyabs, color);
      } else {
        DrawSteep(nX1, nY1, dx, dy, dxabs, dyabs, color);
      }
    }

    /** The loop of a line whose major axis is x. */
    method DrawFlat(x1: int, y1: int, dx: int, dy: int, dxabs: nat, dyabs: nat, color: Color)
      requires Valid() && 0 <= x1 < width && 0 <= y1 < height && 0 <= x1 + dx < width && 0 <= y1 + dy < height
      requires dxabs == Abs(dx) && dyabs == Abs(dy) && dxabs >= dyabs
      modifies buffer
      ensures forall px, py :: 0 <= px < width && 0 <= py < height ==>
                buffer[py, px] == if OnLine(x1, y1, dx, dy, dxabs, px, py) then color else old(buffer[py, px])
    {
      hide Offset, OnLine, LinePoint, Error, Sign;
      var sgndx, sgndy := if dx > 0 then 1 else -1, if dy > 0 then 1 else -1;
      SignIs(dx);
      SignIs(dy);
      var y: int, nX, nY := dxabs / 2, x1, y1;
      SetPixel(nX, nY, color);
      var n: nat := 0;
      FirstPoint(x1, y1, dx, dy);
      while n < dxabs
        invariant n <= dxabs && (nX, nY) == LinePoint(x1, y1, dx, dy, n)
        invariant dxabs > 0 ==> y == Error(dxabs, dyabs, n)
        invariant forall px, py :: 0 <= px < width && 0 <= py < height ==>
                    buffer[py, px] == if OnLine(x1, y1, dx, dy, n, px, py) then color else old(buffer[py, px])
      {
        ErrorStep(dxabs, dyabs, n);
        FlatNext(x1, y1, dx, dy, n);
        y := y + dyabs;
        if y >= dxabs {
          y := y - dxabs;
          nY := nY + sgndy;
        }
        nX := nX + sgndx;
        LineInBox(x1, y1, dx, dy, n + 1);
        OneMorePoint(x1, y1, dx, dy, n);
        SetPixel(nX, nY, color);
        n := n + 1;
      }
    }

    /** And of one whose major axis is y. */
    method DrawSteep(x1: int, y1: int, dx: int, dy: int, dxabs: nat, dyabs: nat, color: Color)
      requires Valid() && 0 <= x1 < width && 0 <= y1 < height && 0 <= x1 + dx < width && 0 <= y1 + dy < height
      requires dxabs == Abs(dx) && dyabs == Abs(dy) && dxabs < dyabs
      modifies buffer
      ensures forall px, py :: 0 <= px < width && 0 <= py < height ==>
                buffer[py, px] == if OnLine(x1, y1, dx, dy, dyabs, px, py) then color else old(buffer[py, px])
    {
      hide Offset, OnLine, LinePoint, Error, Sign;
      var sgndx, sgndy := if dx > 0 then 1 else -1, if dy > 0 then 1 else -1;
      SignIs(dx);
      SignIs(dy);
      var x: int, nX, nY := dyabs / 2, x1, y1;
      SetPixel(nX, nY, color);
      var n: nat := 0;
      FirstPoint(x1, y1, dx, dy);
      while n < dyabs
        invariant n <= dyabs && (nX, nY) == LinePoint(x1, y1, dx, dy, n)
        invariant x == Error(dyabs, dxabs, n)
        invariant forall px, py :: 0 <= px < width && 0 <= py < height ==>
                    buffer[py, px] == if OnLine(x1, y1, dx, dy, n, px, py) then color else old(buffer[py, px])
      {
        ErrorStep(dyabs, dxabs, n);
        SteepNext(x1, y1, dx, dy, n);
        x := x + dxabs;
        if x >= dyabs {
          x := x - dyabs;
          nX := nX + sgndx;
        }
        nY := nY + sgndy;
        LineInBox(x1, y1, dx, dy, n + 1);
        OneMorePoint(x1, y1, dx, dy, n);
        SetPixel(nX, nY, color);
        n := n + 1;
      }
    }

    predicate Rejected(nX: nat, nY: nat, nRadius: nat) {
      (nX + nRadius) % U32 >= width || (nY + nRadius) % U32 >= height || (nX - nRadius) % U32 >= width || (nY - nRadius) % U32 >= height
    }

    /** Nothing when the square around the circle is not on the screen; otherwise exactly the points
        `Drawn` describes. */
    method DrawCircle(nX: nat, nY: nat, nRadius: nat, color: Color)
      requires Valid() && nX < U32 / 2 && nY < U32 / 2 && nRadius < U32 / 2
      modifies buffer
      ensures var on := OnScreen(nX, nRadius, width) && OnScreen(nY, nRadius, height);
              forall px, py :: 0 <= px < width && 0 <= py < height ==>
                buffer[py, px] == if on && Drawn(nRadius, px - nX, py - nY) then color else old(buffer[py, px])
    {
      hide Drawn, Passes, Area, Scan, Column, Row, DrawnBefore, OnScreen;
      GuardIsExact(nX, nRadius, width);
      GuardIsExact(nY, nRadius, height);
      if Rejected(nX, nY, nRadius) { return; }
      Centred(nX, nRadius, width);
      Centred(nY, nRadius, height);
      var r2 := Int32(nRadius * nRadius);
      var area := Area(nRadius);
      var rr := 2 * nRadius;
      var i: nat := 0;
      AreaFits(nRadius);
      SquareOfTwice(nRadius);
      NothingYet(nRadius);
      while i < area
        invariant i <= area
        invariant forall px, py :: 0 <= px < width && 0 <= py < height ==>
                    buffer[py, px] == if DrawnBefore(nRadius, px - nX, py - nY, i) then color else old(buffer[py, px])
      {
        ScanInverse(nRadius, rr, i);
        var tx, ty := Column(rr, nRadius, i), Row(rr, nRadius, i);
        NextInScan(nRadius, i, tx, ty);
        assert Passes(nRadius, tx, ty) <==> Int32(tx * tx + ty * ty) < r2 by { PassesIs(nRadius, tx, ty); }
        hide Int32;
        if Int32(tx * tx + ty * ty) < r2 {
          SetPixel(nX + tx, nY + ty, color);
        }
        i := i + 1;
      }
      AllInScan(nRadius);
    }

    /** The circle's outline: exactly the points `OnOutline` describes, all of them on the screen. */
    method DrawCircleOutline(nX: nat, nY: nat, nRadius: nat, color: Color)
      requires Valid() && nX < U32 / 2 && nY < U32 / 2 && nRadius < U32
      modifies buffer
      ensures var on := OnScreen(nX, nRadius, width) && OnScreen(nY, nRadius, height);
              forall px, py :: 0 <= px < width && 0 <= py < height ==>
                buffer[py, px] == if on && OnOutline(Signed(nRadius), nRadius, px - nX, py - nY) then color else old(buffer[py, px])
    {
      hide OnOutline;
      GuardIsExact(nX, nRadius, width);
      GuardIsExact(nY, nRadius, height);
      if Rejected(nX, nY, nRadius) { return; }
      var r := Signed(nRadius);
      SetPixel(nX + r, nY, color);
      if nRadius > 0 {
        SetPixel(nX, nY - r, color);
        SetPixel(nX + r, nY, color);
        SetPixel(nX, nY + r, color);
      }
      AxisPoints(r);
      if r > 0 {
        AxisKept(r, nRadius);
        DrawOctants(nX, nY, r, color);
      } else {
        NoOctants(r, nRadius);
      }
    }

    /** The midpoint loop. */
    method DrawOctants(nX: nat, nY: nat, radius: nat, color: Color)
      requires Valid() && 0 < radius <= nX && radius <= nY && nX + radius < width && nY + radius < height
      requires forall px, py :: 0 <= px < width && 0 <= py < height && OnOutline(radius, 0, px - nX, py - nY) ==> buffer[py, px] == color
      modifies buffer
      ensures forall px, py :: 0 <= px < width && 0 <= py < height ==>
                buffer[py, px] == if OnOutline(radius, radius, px - nX, py - nY) then color else old(buffer[py, px])
    {
      hide OnOutline, Mirrored;
      var nRadius: int := radius;
      var p := 1 - nRadius;
      var y: nat := 0;
      while nRadius > y
        invariant y <= radius && Outline(radius, y) == Mid(nRadius, p) && nRadius >= y
        invariant forall px, py :: 0 <= px < width && 0 <= py < height ==>
                    buffer[py, px] == if OnOutline(radius, y, px - nX, py - nY) then color else old(buffer[py, px])
        decreases radius - y
      {
        y := y + 1;
        OutlineShrinks(radius, y);
        if p <= 0 {
          p := p + 2 * y + 1;
        } else {
          nRadius := nRadius - 1;
          p := p + 2 * y - 2 * nRadius + 1;
        }
        OutlineNext(radius, y);
        if nRadius < y {
          OutlineOver(radius, y - 1);
          return;
        }
        SetMirrored(nX, nY, nRadius, y, color);
      }
      OutlineOver(radius, y);
    }

    /** The four or eight mirror images of one octant point. */
    method SetMirrored(nX: nat, nY: nat, x: nat, y: nat, color: Color)
      requires Valid() && y <= x && x <= nX && x <= nY && nX + x < width && nY + x < height
      modifies buffer
      ensures forall px, py :: 0 <= px < width && 0 <= py < height ==>
                buffer[py, px] == if Mirrored(x, y, px - nX, py - nY) then color else old(buffer[py, px])
    {
      SetPixel(x + nX, y + nY, color);
      SetPixel(nX - x, y + nY, color);
      SetPixel(x + nX, nY - y, color);
      SetPixel(nX - x, nY - y, color);
      if x != y {
        SetPixel(y + nX, x + nY, color);
        SetPixel(nX - y, x + nY, color);
        SetPixel(y + nX, nY - x, color);
        SetPixel(nX - y, nY - x, color);
      }
    }
  }

  // ---------------------------------------------------------------- one step further

  lemma FirstPoint(x1: int, y1: int, dx: int, dy: int)
    ensures LinePoint(x1, y1, dx, dy, 0) == (x1, y1)
    ensures forall px, py :: OnLine(x1, y1, dx, dy, 0, px, py) <==> (px, py) == (x1, y1)
    ensures Error(Major(dx, dy), Minor(dx, dy), 0) == Major(dx, dy) / 2
  {
    LineInBox(x1, y1, dx, dy, 0);
    OffsetBounds(Major(dx, dy), Minor(dx, dy), 0);
  }

  lemma SignIs(d: int)
    ensures Sign(d) == if d > 0 then 1 else -1
    ensures forall k: int :: Sign(d) * k == if d > 0 then k else -k
  {
  }

  lemma OneMorePoint(x1: int, y1: int, dx: int, dy: int, n: nat)
    ensures forall px, py :: OnLine(x1, y1, dx, dy, n + 1, px, py) <==>
                               OnLine(x1, y1, dx, dy, n, px, py) || (px, py) == LinePoint(x1, y1, dx, dy, n + 1)
  {
    hide LinePoint;
  }

  lemma FlatNext(x1: int, y1: int, dx: int, dy: int, n: nat)
    requires Abs(dx) >= Abs(dy)
    ensures var (px, py) := LinePoint(x1, y1, dx, dy, n);
            LinePoint(x1, y1, dx, dy, n + 1) ==
            (px + Sign(dx), py + Sign(dy) * (Offset(Abs(dx), Abs(dy), n + 1) - Offset(Abs(dx), Abs(dy), n)))
  {
    hide Offset;
  }

  lemma SteepNext(x1: int, y1: int, dx: int, dy: int, n: nat)
    requires Abs(dx) < Abs(dy)
    ensures var (px, py) := LinePoint(x1, y1, dx, dy, n);
            LinePoint(x1, y1, dx, dy, n + 1) ==
            (px + Sign(dx) * (Offset(Abs(dy), Abs(dx), n + 1) - Offset(Abs(dy), Abs(dx), n)), py + Sign(dy))
  {
    hide Offset;
  }

  /** Visited by the first i turns of the scan, and passing the test. */
  predicate DrawnBefore(r: nat, tx: int, ty: int, i: nat) {
    InSquare(r, tx) && InSquare(r, ty) && Scan(r, tx, ty) < i && Passes(r, tx, ty)
  }

  lemma AllInScan(r: nat)
    ensures forall tx, ty :: DrawnBefore(r, tx, ty, Area(r)) <==> Drawn(r, tx, ty)
  {
  }

  lemma NothingYet(r: nat)
    ensures forall tx, ty :: !DrawnBefore(r, tx, ty, 0)
  {
    forall tx, ty | InSquare(r, tx) && InSquare(r, ty) ensures Scan(r, tx, ty) >= 0 { ScanBound(r, tx, ty); }
  }

  lemma AreaFits(r: nat)
    ensures Area(r) <= 4 * (r * r)
  {
  }

  lemma PassesIs(r: nat, tx: int, ty: int)
    ensures Passes(r, tx, ty) <==> Int32(tx * tx + ty * ty) < Int32(r * r)
  {
  }

  lemma Centred(x: nat, r: nat, side: nat)
    requires OnScreen(x, r, side) && r < U32 / 2
    ensures forall t :: InSquare(r, t) ==> 0 <= x + t < side
  {
  }

  function Column(rr: nat, r: nat, i: nat): int
    requires rr > 0
  {
    i % rr - r
  }

  function Row(rr: nat, r: nat, i: nat): int
    requires rr > 0
  {
    i / rr - r
  }

  /** Position i of the scan is row i / rr, column i % rr. */
  lemma ScanInverse(r: nat, rr: nat, i: nat)
    requires rr == 2 * r && i < Square(rr)
    ensures rr > 0
    ensures var tx, ty := Column(rr, r, i), Row(rr, r, i);
            InSquare(r, tx) && InSquare(r, ty) && Scan(r, tx, ty) == i
  {
    hide Square, Column, Row, InSquare, Scan, ScanAt;
    Rows(i, rr);
    InRowAndColumn(r, rr, i, i / rr, i % rr);
  }

  function Square(w: nat): nat { w * w }

  lemma SquareOfTwice(r: nat)
    ensures Square(2 * r) == 4 * (r * r)
  {
  }

  lemma InRowAndColumn(r: nat, rr: nat, i: nat, q: int, m: int)
    requires rr == 2 * r && rr > 0 && q == i / rr && m == i % rr && 0 <= q < rr && 0 <= m < rr && ScanAt(q, rr, m) == i
    ensures InSquare(r, Column(rr, r, i)) && InSquare(r, Row(rr, r, i))
    ensures Scan(r, Column(rr, r, i), Row(rr, r, i)) == i
  {
    hide ScanAt;
  }

  lemma Rows(i: nat, w: nat)
    requires i < Square(w)
    ensures w > 0 && 0 <= i / w < w && 0 <= i % w < w && ScanAt(i / w, w, i % w) == i
  {
    if w != 0 {
      var q := i / w;
      assert i == q * w + i % w;
      if q >= w { MulMono(w, q, w); }
    }
  }

  /** Only one point of the square is at a position. */
  lemma ScanInjective(r: nat, tx: int, ty: int, ux: int, uy: int)
    requires InSquare(r, tx) && InSquare(r, ty) && InSquare(r, ux) && InSquare(r, uy)
    requires Scan(r, tx, ty) == Scan(r, ux, uy)
    ensures tx == ux && ty == uy
  {
    var a, b, w := ty + r, uy + r, 2 * r;
    assert (a + 1) * w == a * w + w && (b + 1) * w == b * w + w;
    if a < b { MulMono(a + 1, b, w); }
    if b < a { MulMono(b + 1, a, w); }
  }

  lemma NextInScan(r: nat, i: nat, tx: int, ty: int)
    requires InSquare(r, tx) && InSquare(r, ty) && Scan(r, tx, ty) == i
    ensures forall ux, uy :: DrawnBefore(r, ux, uy, i + 1) <==>
                               DrawnBefore(r, ux, uy, i) || (ux == tx && uy == ty && Passes(r, tx, ty))
  {
    hide DrawnBefore, Passes, Scan, InSquare;
    forall ux, uy
      ensures DrawnBefore(r, ux, uy, i + 1) <==>
              DrawnBefore(r, ux, uy, i) || (ux == tx && uy == ty && Passes(r, tx, ty))
    {
      NextAt(r, i, tx, ty, ux, uy);
    }
  }

  lemma NextAt(r: nat, i: nat, tx: int, ty: int, ux: int, uy: int)
    requires InSquare(r, tx) && InSquare(r, ty) && Scan(r, tx, ty) == i
    ensures DrawnBefore(r, ux, uy, i + 1) <==>
            DrawnBefore(r, ux, uy, i) || (ux == tx && uy == ty && Passes(r, tx, ty))
  {
    hide Passes, Scan, InSquare;
    if InSquare(r, ux) && InSquare(r, uy) && Scan(r, ux, uy) == i { ScanInjective(r, tx, ty, ux, uy); }
  }

  lemma AxisPoints(r: int)
    ensures forall tx, ty :: OnOutline(r, 0, tx, ty) <==> (tx == r && ty == 0) || (tx == 0 && ty == r) || (tx == 0 && ty == -r)
  {
  }

  lemma AxisKept(r: int, steps: nat)
    ensures forall tx, ty :: OnOutline(r, 0, tx, ty) ==> OnOutline(r, steps, tx, ty)
  {
  }

  lemma NoOctants(r: int, steps: nat)
    requires r <= 0
    ensures forall tx, ty :: OnOutline(r, steps, tx, ty) <==> OnOutline(r, 0, tx, ty)
  {
  }

  lemma OutlineNext(r: nat, y: nat)
    requires y > 0 && r > 0
    ensures forall tx, ty :: OnOutline(r, y, tx, ty) <==>
                               OnOutline(r, y - 1, tx, ty) || (Plotted(r, y) && Mirrored(Outline(r, y).x, y, tx, ty))
  {
    hide Mirrored, Outline, Plotted;
  }

  /** Once the radius has come down to y, nothing more is plotted. */
  lemma OutlineOver(r: nat, y: nat)
    requires r > 0 && y <= r && !Plotted(r, y + 1)
    ensures forall tx, ty :: OnOutline(r, y, tx, ty) <==> OnOutline(r, r, tx, ty)
  {
    forall z: nat | y < z <= r ensures !Plotted(r, z) { NeverAgain(r, y + 1, z); }
    hide Mirrored, Outline, Plotted;
  }

  lemma {:induction false} NeverAgain(r: nat, y: nat, z: nat)
    requires 0 < y <= z && !Plotted(r, y)
    ensures !Plotted(r, z)
    decreases z - y
  {
    if y < z {
      OutlineShrinks(r, y + 1);
      NeverAgain(r, y + 1, z);
    }
  }
}
