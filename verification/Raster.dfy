/** The points of Bresenham's line, the midpoint circle and the scanned disc, and how far they are from
    the ideal curves. */
module Raster {
  import opened Basics

  /** No side of a screen is longer. */
  const MAX_SIDE: nat := 0x1000_0000

  function Sign(x: int): int { if x > 0 then 1 else -1 }

  // ---------------------------------------------------------------- lines

  /** Steps along the major axis, and along the minor one. */
  function Major(dx: int, dy: int): nat { if Abs(dx) >= Abs(dy) then Abs(dx) else Abs(dy) }
  function Minor(dx: int, dy: int): nat { if Abs(dx) >= Abs(dy) then Abs(dy) else Abs(dx) }

  /** The minor offset after n major steps. */
  function Offset(major: nat, minor: nat, n: nat): nat {
    if major == 0 then 0 else (major / 2 + n * minor) / major
  }

  /** The n-th point of the line. */
  function LinePoint(x1: int, y1: int, dx: int, dy: int, n: nat): (int, int) {
    var off := Offset(Major(dx, dy), Minor(dx, dy), n);
    if Abs(dx) >= Abs(dy) then (x1 + Sign(dx) * n, y1 + Sign(dy) * off)
    else (x1 + Sign(dx) * off, y1 + Sign(dy) * n)
  }

  /** One of the first n + 1 points. */
  ghost predicate OnLine(x1: int, y1: int, dx: int, dy: int, n: nat, px: int, py: int) {
    exists k :: 0 <= k <= n && LinePoint(x1, y1, dx, dy, k) == (px, py)
  }

  /** The minor offset is the integer nearest to the ideal line: at most half a pixel off. */
  lemma OffsetIsNearest(major: nat, minor: nat, n: nat)
    requires minor <= major
    ensures 2 * Abs(n * minor - Offset(major, minor, n) * major) <= major
  {
    if major > 0 {
      var a, off := major / 2 + n * minor, Offset(major, minor, n);
      assert a == off * major + a % major;
    } else {
      assert n * minor == 0 && Offset(major, minor, n) * major == 0;
    }
  }

  lemma OffsetBounds(major: nat, minor: nat, n: nat)
    requires minor <= major && n <= major
    ensures Offset(major, minor, n) <= minor && Offset(major, minor, 0) == 0
    ensures n == major ==> Offset(major, minor, n) == minor
  {
    if major > 0 {
      assert 0 * minor == 0 && 0 * major == 0;
      Quotient(major / 2, major, 0);
      var a, off := major / 2 + n * minor, Offset(major, minor, n);
      MulMono(n, major, minor);
      assert major * minor == minor * major;
      if n == major {
        Quotient(a, major, minor);
      } else {
        assert a == off * major + a % major;
        assert (minor + 1) * major == minor * major + major;
        if off > minor { MulMono(minor + 1, off, major); }
      }
    }
  }

  /** Every point lies in the box of the two ends, the first on one end and the last on the other. */
  lemma LineInBox(x1: int, y1: int, dx: int, dy: int, n: nat)
    requires n <= Major(dx, dy)
    ensures var (px, py) := LinePoint(x1, y1, dx, dy, n);
            && (x1 <= px <= x1 + dx || x1 + dx <= px <= x1)
            && (y1 <= py <= y1 + dy || y1 + dy <= py <= y1)
    ensures LinePoint(x1, y1, dx, dy, 0) == (x1, y1)
    ensures LinePoint(x1, y1, dx, dy, Major(dx, dy)) == (x1 + dx, y1 + dy)
  {
    hide Offset;
    var major, minor := Major(dx, dy), Minor(dx, dy);
    OffsetBounds(major, minor, n);
    OffsetBounds(major, minor, major);
    OffsetBounds(major, minor, 0);
    var a, b := if Abs(dx) >= Abs(dy) then n else Offset(major, minor, n), if Abs(dx) >= Abs(dy) then Offset(major, minor, n) else n;
    hide Major, Minor, Sign;
    OnTheWay(x1, dx, a);
    OnTheWay(y1, dy, b);
    OnTheWay(x1, dx, Abs(dx));
    OnTheWay(y1, dy, Abs(dy));
  }

  /** Every point is within half a pixel of the ideal line, measured along the minor axis. */
  lemma LineIsNear(x1: int, y1: int, dx: int, dy: int, n: nat)
    ensures var (px, py) := LinePoint(x1, y1, dx, dy, n);
            2 * Abs(dx * (py - y1) - dy * (px - x1)) <= if Abs(dx) >= Abs(dy) then Abs(dx) else Abs(dy)
  {
    hide Offset;
    var major, minor := Major(dx, dy), Minor(dx, dy);
    var off := Offset(major, minor, n);
    OffsetIsNearest(major, minor, n);
    if Abs(dx) >= Abs(dy) { Crossed(dx, dy, n, off); } else { Crossed(dy, dx, n, off); }
  }

  lemma Crossed(d: int, e: int, n: int, off: int)
    ensures Abs(d * (Sign(e) * off) - e * (Sign(d) * n)) == Abs(n * Abs(e) - off * Abs(d))
  {
    Signs(d, off);
    Signs(e, n);
    Signs(d, n);
    Signs(e, off);
  }

  lemma Signs(d: int, k: int)
    ensures k * Abs(d) == if d >= 0 then d * k else -(d * k)
    ensures Sign(d) * k == if d > 0 then k else -k
    ensures d * -k == -(d * k)
  {
  }

  /** And each next to the one before: one step along the major axis, at most one along the other. */
  lemma LineIsConnected(x1: int, y1: int, dx: int, dy: int, n: nat)
    requires n < Major(dx, dy)
    ensures var (px, py), (qx, qy) := LinePoint(x1, y1, dx, dy, n), LinePoint(x1, y1, dx, dy, n + 1);
            if Abs(dx) >= Abs(dy) then Abs(qx - px) == 1 && Abs(qy - py) <= 1 else Abs(qy - py) == 1 && Abs(qx - px) <= 1
  {
    ErrorStep(Major(dx, dy), Minor(dx, dy), n);
    hide Offset;
  }

  lemma OnTheWay(x: int, d: int, k: nat)
    requires k <= Abs(d)
    ensures x <= x + Sign(d) * k <= x + d || x + d <= x + Sign(d) * k <= x
    ensures k == Abs(d) ==> x + Sign(d) * k == x + d
    ensures Sign(d) * 0 == 0
  {
  }

  /** The error term of the loop. */
  function Error(major: nat, minor: nat, n: nat): int {
    major / 2 + n * minor - Offset(major, minor, n) * major
  }

  /** Adding the minor distance once carries at most once. */
  lemma ErrorStep(major: nat, minor: nat, n: nat)
    requires minor <= major && major > 0
    ensures var e := Error(major, minor, n);
            && 0 <= e < major
            && Offset(major, minor, n + 1) == Offset(major, minor, n) + (if e + minor >= major then 1 else 0)
            && Error(major, minor, n + 1) == (if e + minor >= major then e + minor - major else e + minor)
  {
    var off := Offset(major, minor, n);
    var a := major / 2 + n * minor;
    assert a == off * major + a % major;
    var e := a - off * major;
    assert (n + 1) * minor == n * minor + minor;
    assert (off + 1) * major == off * major + major;
    Quotient(a + minor, major, if e + minor >= major then off + 1 else off);
  }

  // ---------------------------------------------------------------- the midpoint circle

  /** The state of the outline loop with `y` steps done: the current radius, and the error. */
  datatype Mid = Mid(x: int, p: int)

  function Outline(r: nat, y: nat): Mid {
    if y == 0 then Mid(r, 1 - r)
    else
      var m := Outline(r, y - 1);
      if m.p <= 0 then Mid(m.x, m.p + 2 * y + 1) else Mid(m.x - 1, m.p + 2 * y - 2 * (m.x - 1) + 1)
  }

  /** The loop plots at this y. */
  predicate Plotted(r: nat, y: nat) {
    y > 0 && Outline(r, y).x >= y
  }

  lemma {:induction false} OutlineShrinks(r: nat, y: nat)
    ensures Outline(r, y).x <= r
    ensures y > 0 ==> Outline(r, y).x <= Outline(r, y - 1).x <= Outline(r, y).x + 1
  {
    if y > 0 { OutlineShrinks(r, y - 1); }
  }

  /** The error term is the one of the midpoint, and every octant point is as near to the circle as a
      pixel can be: |x^2 + y^2 - r^2| <= x. */
  lemma {:induction false} OutlineIsNear(r: nat, y: nat)
    requires y == 0 || Plotted(r, y)
    ensures var m := Outline(r, y);
            && m.p == (y + 1) * (y + 1) + m.x * m.x - m.x - r * r
            && Abs(m.x * m.x + y * y - r * r) <= m.x
  {
    if y > 0 {
      OutlineShrinks(r, y);
      OutlineIsNear(r, y - 1);
      var m, m' := Outline(r, y - 1), Outline(r, y);
      Squares(m.x, y);
      assert m.p == y * y + m.x * m.x - m.x - r * r;
    }
  }

  /** So the column of every octant point is the integer nearest to the circle's in its row: it is the x
      with x - 1/2 <= sqrt(r^2 - y^2 + 1/4) < x + 1/2. */
  lemma {:induction false} OutlineIsNearest(r: nat, y: nat)
    requires (y == 0 && r > 0) || Plotted(r, y)
    ensures var x := Outline(r, y).x; x * (x - 1) + y * y <= r * r < x * (x + 1) + y * y
  {
    if y > 0 {
      OutlineShrinks(r, y);
      OutlineIsNear(r, y - 1);
      OutlineIsNear(r, y);
      OutlineIsNearest(r, y - 1);
      var m, m' := Outline(r, y - 1), Outline(r, y);
      Squares(m.x, y);
      Squares(m'.x, y);
      NextColumn(m.x);
      NextColumn(m'.x);
    }
  }

  lemma NextColumn(x: int)
    ensures x * (x - 1) == x * x - x && x * (x + 1) == x * x + x && (x - 1) * (x - 2) == x * x - 3 * x + 2
  {
  }

  lemma Squares(x: int, y: int)
    ensures (x - 1) * (x - 1) == x * x - 2 * x + 1
    ensures (y + 1) * (y + 1) == y * y + 2 * y + 1
    ensures (y - 1) * (y - 1) == y * y - 2 * y + 1
  {
  }

  /** The eight mirror images of a point. */
  predicate Mirrored(x: int, y: int, tx: int, ty: int) {
    (Abs(tx) == Abs(x) && Abs(ty) == Abs(y)) || (Abs(tx) == Abs(y) && Abs(ty) == Abs(x))
  }

  /** A radius as a signed number; only a huge one is negative. */
  function Signed(r: nat): int {
    if r < U32 / 2 then r else r - U32
  }

  /** Relative to the centre: the points on the axes (but not to the left, unless the loop plots it),
      and the mirror images of what was plotted in `steps` steps. */
  ghost predicate OnOutline(r: int, steps: nat, tx: int, ty: int) {
    || (tx == r && ty == 0) || (tx == 0 && ty == r) || (tx == 0 && ty == -r)
    || (r > 0 && exists y :: 0 < y <= steps && Plotted(r, y) && Mirrored(Outline(r, y).x, y, tx, ty))
  }

  /** The eight mirror images, one by one. */
  predicate Image(tx: int, ty: int, sx: int, sy: int) {
    (sx, sy) in {(tx, ty), (-tx, ty), (tx, -ty), (-tx, -ty), (ty, tx), (-ty, tx), (ty, -tx), (-ty, -tx)}
  }

  /** The outline is symmetric but for the left end of the horizontal axis, which is never set. */
  lemma OutlineIsSymmetric(r: nat, steps: nat, tx: int, ty: int, sx: int, sy: int)
    requires r > 0 && OnOutline(r, steps, tx, ty) && Image(tx, ty, sx, sy)
    ensures OnOutline(r, steps, sx, sy) <==> (sx, sy) != (0 - r, 0)
  {
    hide Outline;
  }

  /** Every point of the outline is as near to the circle as a pixel can be. */
  lemma OutlinePointsAreNear(r: nat, steps: nat, tx: int, ty: int)
    requires OnOutline(r, steps, tx, ty)
    ensures Abs(tx * tx + ty * ty - r * r) <= if Abs(tx) >= Abs(ty) then Abs(tx) else Abs(ty)
  {
    hide Outline;
    AbsSquare(tx);
    AbsSquare(ty);
    if y :| 0 < y <= steps && Plotted(r, y) && Mirrored(Outline(r, y).x, y, tx, ty) {
      OutlineIsNear(r, y);
      AbsSquare(Outline(r, y).x);
      AbsSquare(y);
    }
  }

  /** The outline has no gap: every row from -r to r, but the middle one, has a point on either side. */
  lemma OutlineHasEveryRow(r: nat, t: int)
    requires 0 < Abs(t) <= r
    ensures exists s :: 0 <= s <= r && OnOutline(r, r, s, t) && OnOutline(r, r, 0 - s, t)
  {
    RowFrom(r, 0, t);
  }

  lemma {:induction false} RowFrom(r: nat, y: nat, t: int)
    requires (y == 0 || Plotted(r, y)) && 0 < Abs(t) && y <= Abs(t) <= Outline(r, y).x
    ensures exists s :: 0 <= s <= r && OnOutline(r, r, s, t) && OnOutline(r, r, 0 - s, t)
    decreases r - y
  {
    var x := Outline(r, y).x;
    OutlineShrinks(r, y);
    if Abs(t) == x {
      assert OnOutline(r, r, y, t) && OnOutline(r, r, 0 - y, t);
    } else if Abs(t) == y {
      assert OnOutline(r, r, x, t) && OnOutline(r, r, -x, t);
    } else {
      OutlineShrinks(r, y + 1);
      RowFrom(r, y + 1, t);
    }
  }

  /** The test at the head of both circle functions, in 32-bit arithmetic. */
  predicate Guard(x: nat, r: nat, side: nat) {
    (x + r) % U32 < side && (x - r) % U32 < side
  }

  /** The square around the circle is on the screen. */
  predicate OnScreen(x: nat, r: nat, side: nat) {
    0 <= x - Signed(r) < side && 0 <= x + Signed(r) < side
  }

  /** Whatever fits passes the test; what passes fits exactly when the centre's coordinate is no
      negative int. */
  lemma GuardIsExact(x: nat, r: nat, side: nat)
    requires x < U32 && r < U32 && side <= MAX_SIDE
    ensures OnScreen(x, r, side) ==> Guard(x, r, side)
    ensures Guard(x, r, side) ==> (OnScreen(x, r, side) <==> x < U32 / 2)
  {
    WrapUp(x + r);
    WrapUp(x - r);
  }

  lemma WrapUp(z: int)
    requires z + U32 >= 0 && z < 2 * U32
    ensures z % U32 == if z < 0 then z + U32 else if z < U32 then z else z - U32
  {
    var q := if z < 0 then -1 else if z < U32 then 0 else 1;
    assert z == U32 * q + (z - U32 * q);
  }

  /** A centre and a radius beyond all screens that pass the test nevertheless: both sums wrap around. */
  lemma BothSumsWrap(side: nat)
    requires 2 < side <= MAX_SIDE
    ensures Guard(0x8000_0001, 0x7fff_ffff, side) && !OnScreen(0x8000_0001, 0x7fff_ffff, side)
  {
  }

  // ---------------------------------------------------------------- the disc

  /** A 32-bit value read as an int. */
  function Int32(z: int): (i: int)
    ensures -0x8000_0000 <= i < 0x8000_0000 && (z - i) % 0x1_0000_0000 == 0
  {
    Wraps(z);
    var u := z % U32;
    if u < U32 / 2 then u else u - U32
  }

  lemma Wraps(z: int)
    ensures (z - z % U32) % U32 == 0 && (z - (z % U32 - U32)) % U32 == 0
  {
    var q := z / U32;
    assert z - z % U32 == U32 * q && z - (z % U32 - U32) == U32 * (q + 1);
  }

  /** How many positions of the square the loop of DrawCircle visits: four times the squared radius,
      in 32 bits. */
  function Area(r: nat): nat {
    4 * (r * r) % U32
  }

  predicate Passes(r: nat, tx: int, ty: int) {
    Int32(tx * tx + ty * ty) < Int32(r * r)
  }

  /** The position of a point in the scan of the square, row by row. */
  function Scan(r: nat, tx: int, ty: int): int {
    ScanAt(ty + r, 2 * r, tx + r)
  }

  function ScanAt(row: int, w: int, column: int): int {
    row * w + column
  }

  predicate InSquare(r: nat, t: int) { 0 <= t + r && t < r }

  /** A point of the square is drawn when the scan gets there and the test passes. */
  predicate Drawn(r: nat, tx: int, ty: int) {
    InSquare(r, tx) && InSquare(r, ty) && Scan(r, tx, ty) < Area(r) && Passes(r, tx, ty)
  }

  lemma SquareBound(t: int, r: nat)
    requires 0 <= t + r && t <= r
    ensures 0 <= t * t <= r * r
  {
    MulMono(Abs(t), r, Abs(t));
    MulMono(Abs(t), r, r);
    assert Abs(t) * r == r * Abs(t);
    AbsSquare(t);
  }

  lemma AbsSquare(t: int)
    ensures Abs(t) * Abs(t) == t * t
  {
  }

  lemma ScanBound(r: nat, tx: int, ty: int)
    requires InSquare(r, tx) && InSquare(r, ty)
    ensures 0 <= Scan(r, tx, ty) < 4 * (r * r)
  {
    MulMono(ty + r, 2 * r - 1, 2 * r);
    MulMono(0, ty + r, 2 * r);
    LastScan(r);
  }

  lemma LastScan(r: nat)
    ensures (2 * r - 1) * (2 * r) + 2 * r == 4 * (r * r)
  {
  }

  lemma SmallDisc(r: nat, tx: int, ty: int)
    requires r < 0x8000
    ensures Drawn(r, tx, ty) <==> tx * tx + ty * ty < r * r
  {
    SquareBound(r, 0x7fff);
    assert Area(r) == 4 * (r * r) && Int32(r * r) == r * r;
    if Abs(tx) <= r && Abs(ty) <= r {
      SquareBound(tx, r);
      SquareBound(ty, r);
      assert Int32(tx * tx + ty * ty) == tx * tx + ty * ty;
      if tx < r && ty < r { ScanBound(r, tx, ty); }
    } else {
      Outside(r, tx, ty);
    }
  }

  lemma Outside(r: nat, tx: int, ty: int)
    requires Abs(tx) > r || Abs(ty) > r
    ensures tx * tx + ty * ty >= r * r
  {
    AbsSquare(tx);
    AbsSquare(ty);
    if Abs(tx) > r { SquareBound(r, Abs(tx)); } else { SquareBound(r, Abs(ty)); }
  }

  /** From a radius of 0x8000 on the area wraps around and the bottom of the disc stays empty. */
  lemma LargeDisc(r: nat)
    requires 0x8000 <= r < U32 / 2
    ensures 0 * 0 + (r - 1) * (r - 1) < r * r && !Drawn(r, 0, r - 1)
  {
    var a := 4 * (r * r);
    SquareBound(0x8000, r);
    assert a == U32 * (a / U32) + a % U32;
    assert Scan(r, 0, r - 1) == (2 * r - 1) * (2 * r) + r == a - r;
    Squares(r, r);
  }

  /** DrawCircle fills exactly the points nearer to the centre than the radius if and only if the
      radius is below 0x8000. */
  lemma DiscIff(r: nat)
    requires r < U32 / 2
    ensures r < 0x8000 <==> forall tx, ty :: Drawn(r, tx, ty) <==> tx * tx + ty * ty < r * r
  {
    if r < 0x8000 {
      forall tx, ty ensures Drawn(r, tx, ty) <==> tx * tx + ty * ty < r * r { SmallDisc(r, tx, ty); }
    } else {
      LargeDisc(r);
    }
  }
}
