/** Ring sizing (internal/geospatial/h3.go) on an ideal plane tiled by regular hexagons.

    Points are given in lattice coordinates: (u, v) stands for u*e1 + v*e2, where e1 and e2 join the centre of a hexagon
    to two adjacent neighbours' centres, 60 degrees apart. For circumradius c both have length sqrt(3)*c, so the squared
    Euclidean length of (u, v) is 3*c*c*(u*u + u*v + v*v) and no square root is needed. */
module HexGrid {

  datatype Point = Point(u: real, v: real)
  datatype Hex = Hex(x: int, y: int)

  function Norm(u: real, v: real): real { u * u + u * v + v * v }

  /** Squared distance in square metres for circumradius c. */
  function Dist2(c: real, p: Point, q: Point): real {
    3.0 * c * c * Norm(q.u - p.u, q.v - p.v)
  }

  function Centre(h: Hex): Point { Point(h.x as real, h.y as real) }

  /** The closed hexagon h: its six sides lie halfway to its six neighbours. */
  predicate Inside(p: Point, h: Hex) {
    var a, b := p.u - h.x as real, p.v - h.y as real;
    -1.0 <= 2.0 * a + b <= 1.0 && -1.0 <= a + 2.0 * b <= 1.0 && -1.0 <= a - b <= 1.0
  }

  function Abs(x: int): nat { if x < 0 then -x else x }

  function AbsR(x: real): real { if x < 0.0 then -x else x }

  // ---------- hexagons are the nearest-centre cells ----------

  lemma OffsetNorm(a: real, b: real, m: real, n: real)
    ensures Norm(a - m, b - n) == Norm(a, b) - (m * (2.0 * a + b) + n * (a + 2.0 * b)) + Norm(m, n)
  {}

  lemma Positive(a: real, b: real)
    requires a > 0.0 && b > 0.0
    ensures a * b > 0.0
  {}

  lemma SquareNotNegative(a: real)
    ensures a * a >= 0.0
  {}

  lemma ScaleOrder(k: real, s: real, t: real)
    requires k > 0.0
    ensures k * s <= k * t <==> s <= t
  {}

  lemma Scale(c: real, f: real) returns (k: real)
    requires c > 0.0 && f > 0.0
    ensures k == f * c * c && k > 0.0
  {
    Positive(f, c);
    Positive(f * c, c);
    k := f * c * c;
  }

  lemma AtMost(k: real, x: real)
    requires k >= 0.0 && x <= 1.0
    ensures k * x <= k
  {}

  lemma SquareBound(m: int)
    ensures Abs(m) <= m * m
  {}

  lemma ProductBound(m: int, n: int)
    ensures m >= 0 && n >= 0 ==> m * n >= 0
    ensures m <= 0 && n <= 0 ==> m * n >= 0
  {}

  /** The squared length of a nonzero lattice vector is at least its longest coordinate. */
  lemma LatticeNorm(m: int, n: int)
    ensures Abs(m) <= m * m + m * n + n * n && Abs(n) <= m * m + m * n + n * n
    ensures Abs(m + n) <= m * m + m * n + n * n
  {
    var q := m * m + m * n + n * n;
    ProductBound(m, m + n);
    ProductBound(n, m + n);
    ProductBound(m, -n);
    assert q == m * (m + n) + n * n;
    assert q == n * (m + n) + m * m;
    assert q == (m + n) * (m + n) - m * n;
    SquareBound(m);
    SquareBound(n);
    SquareBound(m + n);
  }

  /** m*x - p*y is at most m: the x part of m beyond p, and p times x - y. */
  lemma MixedBound(m: real, p: real, x: real, y: real)
    requires 0.0 <= p <= m && x <= 1.0 && x - y <= 1.0
    ensures m * x - p * y <= m
  {
    AtMost(p, x - y);
    AtMost(m - p, x);
    assert p * (x - y) == p * x - p * y;
    assert (m - p) * x == m * x - p * x;
  }

  /** The linear form m*x + n*y is bounded by the longest coordinate of the lattice vector (m, n). */
  lemma LinearBound(m: real, n: real, x: real, y: real)
    requires -1.0 <= x <= 1.0 && -1.0 <= y <= 1.0 && -1.0 <= x - y <= 1.0
    ensures m >= 0.0 && n >= 0.0 ==> m * x + n * y <= m + n
    ensures m >= 0.0 >= n && m + n >= 0.0 ==> m * x + n * y <= m
    ensures m >= 0.0 >= n && m + n <= 0.0 ==> m * x + n * y <= -n
  {
    if m >= 0.0 && n >= 0.0 {
      AtMost(m, x);
      AtMost(n, y);
    } else if m >= 0.0 && m + n >= 0.0 {
      MixedBound(m, -n, x, y);
    } else if m >= 0.0 {
      MixedBound(-n, m, -y, -x);
    }
  }

  lemma LongestBound(m: real, n: real, x: real, y: real)
    requires -1.0 <= x <= 1.0 && -1.0 <= y <= 1.0 && -1.0 <= x - y <= 1.0
    ensures var f := m * x + n * y; f <= AbsR(m) || f <= AbsR(n) || f <= AbsR(m + n)
  {
    if m >= 0.0 {
      LinearBound(m, n, x, y);
    } else {
      LinearBound(-m, -n, -x, -y);
      assert (-m) * (-x) == m * x && (-n) * (-y) == n * y;
    }
  }

  lemma BoundByNorm(m: int, n: int, q: int, f: real)
    requires Abs(m) <= q && Abs(n) <= q && Abs(m + n) <= q
    requires f <= AbsR(m as real) || f <= AbsR(n as real) || f <= AbsR(m as real + n as real)
    ensures f <= q as real
  {}

  lemma LatticeBound(m: int, n: int, x: real, y: real)
    requires -1.0 <= x <= 1.0 && -1.0 <= y <= 1.0 && -1.0 <= x - y <= 1.0
    ensures m as real * x + n as real * y <= (m * m + m * n + n * n) as real
  {
    LatticeNorm(m, n);
    LongestBound(m as real, n as real, x, y);
    BoundByNorm(m, n, m * m + m * n + n * n, m as real * x + n as real * y);
  }

  lemma NearerIff(c: real, p: Point, h: Hex, g: Hex)
    requires c > 0.0
    ensures var a, b, m, n := p.u - h.x as real, p.v - h.y as real, g.x - h.x, g.y - h.y;
            Dist2(c, Centre(h), p) <= Dist2(c, Centre(g), p) <==>
            m as real * (2.0 * a + b) + n as real * (a + 2.0 * b) <= (m * m + m * n + n * n) as real
  {
    var a, b, m, n := p.u - h.x as real, p.v - h.y as real, g.x - h.x, g.y - h.y;
    var M, N := m as real, n as real;
    OffsetNorm(a, b, M, N);
    assert p.u - g.x as real == a - M && p.v - g.y as real == b - N;
    assert Norm(M, N) == (m * m + m * n + n * n) as real;
    var k := Scale(c, 3.0);
    ScaleOrder(k, Norm(a, b), Norm(a - M, b - N));
  }

  /** h contains p exactly when no centre is nearer to p than the centre of h. */
  lemma InsideIffNearest(c: real, p: Point, h: Hex)
    requires c > 0.0
    ensures Inside(p, h) <==> forall g: Hex :: Dist2(c, Centre(h), p) <= Dist2(c, Centre(g), p)
  {
    var a, b := p.u - h.x as real, p.v - h.y as real;
    if Inside(p, h) {
      forall g: Hex ensures Dist2(c, Centre(h), p) <= Dist2(c, Centre(g), p) {
        var m, n := g.x - h.x, g.y - h.y;
        LatticeBound(m, n, 2.0 * a + b, a + 2.0 * b);
        NearerIff(c, p, h, g);
      }
    } else {
      var g := if 2.0 * a + b > 1.0 then Hex(h.x + 1, h.y)
               else if 2.0 * a + b < -1.0 then Hex(h.x - 1, h.y)
               else if a + 2.0 * b > 1.0 then Hex(h.x, h.y + 1)
               else if a + 2.0 * b < -1.0 then Hex(h.x, h.y - 1)
               else if a - b > 1.0 then Hex(h.x + 1, h.y - 1)
               else Hex(h.x - 1, h.y + 1);
      NearerIff(c, p, h, g);
      assert !(Dist2(c, Centre(h), p) <= Dist2(c, Centre(g), p));
    }
  }

  // ---------- grid distance ----------

  function GridNorm(x: int, y: int): nat {
    var s := Abs(x + y);
    var m := if Abs(x) < Abs(y) then Abs(y) else Abs(x);
    if m < s then s else m
  }

  function Neighbours(h: Hex): seq<Hex> {
    [Hex(h.x + 1, h.y), Hex(h.x - 1, h.y), Hex(h.x, h.y + 1),
     Hex(h.x, h.y - 1), Hex(h.x + 1, h.y - 1), Hex(h.x - 1, h.y + 1)]
  }

  /** GridDisk(k): what k hops between neighbours reach from the origin. */
  predicate InDisk(o: Hex, h: Hex, k: nat)
    decreases k
  {
    if k == 0 then h == o
    else InDisk(o, h, k - 1) || exists i :: 0 <= i < 6 && InDisk(o, Neighbours(h)[i], k - 1)
  }

  /** A neighbour one hop nearer to the origin. */
  function Towards(o: Hex, h: Hex): nat {
    var x, y := h.x - o.x, h.y - o.y;
    if x > 0 && y < 0 then 5
    else if x < 0 && y > 0 then 4
    else if x > 0 then 1
    else if x < 0 then 0
    else if y > 0 then 3
    else 2
  }

  function Hops(o: Hex, h: Hex): nat { GridNorm(h.x - o.x, h.y - o.y) }

  /** One hop changes the grid norm by at most one, and some hop lowers it. */
  lemma HopsOfNeighbours(o: Hex, h: Hex)
    ensures forall i :: 0 <= i < 6 ==> Hops(o, h) <= Hops(o, Neighbours(h)[i]) + 1
    ensures h != o ==> Hops(o, Neighbours(h)[Towards(o, h)]) + 1 == Hops(o, h)
    ensures Hops(o, h) == 0 <==> h == o
  {}

  lemma {:induction false} DiskIffGridNorm(o: Hex, h: Hex, k: nat)
    ensures InDisk(o, h, k) <==> Hops(o, h) <= k
    decreases k
  {
    HopsOfNeighbours(o, h);
    if k > 0 {
      DiskIffGridNorm(o, h, k - 1);
      forall i | 0 <= i < 6 ensures InDisk(o, Neighbours(h)[i], k - 1) <==> Hops(o, Neighbours(h)[i]) <= k - 1 {
        DiskIffGridNorm(o, Neighbours(h)[i], k - 1);
      }
      if h != o {
        assert InDisk(o, Neighbours(h)[Towards(o, h)], k - 1) <==> Hops(o, h) <= k;
      }
    }
  }

  // ---------- the size of a disk ----------

  /** The sequence lists each cell within k hops of o once and no other cell. */
  ghost predicate Lists(cells: seq<Hex>, o: Hex, k: nat) {
    && (forall h :: h in cells <==> InDisk(o, h, k))
    && (forall i, j :: 0 <= i < j < |cells| ==> cells[i] != cells[j])
  }

  /** n cells of column x, from y upwards. */
  function Stretch(x: int, y: int, n: nat): set<Hex> {
    if n == 0 then {} else Stretch(x, y, n - 1) + {Hex(x, y + n - 1)}
  }

  lemma {:induction false} StretchSize(x: int, y: int, n: nat)
    ensures |Stretch(x, y, n)| == n
    ensures forall h: Hex :: h in Stretch(x, y, n) <==> h.x == x && y <= h.y < y + n
  {
    if n > 0 { StretchSize(x, y, n - 1); }
  }

  /** How many cells of the disk are in the column x away from its middle, and where they start. */
  function Height(k: nat, x: int): int { 2 * k + 1 - Abs(x) }

  function Bottom(k: nat, x: int): int { if x < 0 then 0 - k - x else 0 - k }

  lemma ColumnOfDisk(k: nat, x: int, y: int)
    ensures GridNorm(x, y) <= k <==> Abs(x) <= k && Bottom(k, x) <= y < Bottom(k, x) + Height(k, x)
  {}

  function Column(o: Hex, k: nat, x: int): set<Hex>
    requires Abs(x) <= k
  {
    Stretch(o.x + x, o.y + Bottom(k, x), Height(k, x))
  }

  lemma ColumnHolds(o: Hex, k: nat, x: int, h: Hex)
    requires Abs(x) <= k
    ensures |Column(o, k, x)| == Height(k, x)
    ensures h in Column(o, k, x) <==> h.x - o.x == x && Hops(o, h) <= k
  {
    StretchSize(o.x + x, o.y + Bottom(k, x), Height(k, x));
    ColumnOfDisk(k, h.x - o.x, h.y - o.y);
  }

  /** The first n columns of the disk, from the left. */
  function Columns(o: Hex, k: nat, n: nat): set<Hex>
    requires n <= 2 * k + 1
  {
    if n == 0 then {} else Columns(o, k, n - 1) + Column(o, k, n - 1 - k)
  }

  lemma {:induction false} ColumnsHold(o: Hex, k: nat, n: nat, h: Hex)
    requires n <= 2 * k + 1
    ensures h in Columns(o, k, n) <==> Hops(o, h) <= k && h.x - o.x < n - k
  {
    if n == 0 {
      ColumnOfDisk(k, h.x - o.x, h.y - o.y);
    } else {
      ColumnsHold(o, k, n - 1, h);
      ColumnHolds(o, k, n - 1 - k, h);
    }
  }

  lemma ColumnAdds(o: Hex, k: nat, n: nat)
    requires 0 < n <= 2 * k + 1
    ensures |Columns(o, k, n)| == |Columns(o, k, n - 1)| + Height(k, n - 1 - k)
  {
    var left, column := Columns(o, k, n - 1), Column(o, k, n - 1 - k);
    ColumnHolds(o, k, n - 1 - k, o);
    forall h: Hex | h in column ensures h !in left {
      ColumnHolds(o, k, n - 1 - k, h);
      ColumnsHold(o, k, n - 1, h);
    }
    assert left !! column;
  }

  /** Twice the cells of n columns at an edge of the disk: the first has k + 1 cells, each further one has one more. */
  function TwiceEdge(k: nat, n: int): int { n * (2 * k + 1 + n) }

  lemma TwiceEdgeStep(k: nat, n: int)
    ensures TwiceEdge(k, n) == TwiceEdge(k, n - 1) + 2 * (k + n)
  {}

  function Total(k: nat): nat { 3 * k * (k + 1) + 1 }

  /** Twice the cells of the first n columns, counted from the nearer edge. */
  function TwiceCells(k: nat, n: nat): int {
    if n <= k + 1 then TwiceEdge(k, n) else 2 * Total(k) - TwiceEdge(k, 2 * k + 1 - n)
  }

  lemma TwiceCellsStep(k: nat, n: nat)
    requires 0 < n <= 2 * k + 1
    ensures TwiceCells(k, n) == TwiceCells(k, n - 1) + 2 * Height(k, n - 1 - k)
  {
    TwiceEdgeStep(k, n);
    TwiceEdgeStep(k, 2 * k + 2 - n);
    assert TwiceEdge(k, k + 1) == 2 * Total(k) - TwiceEdge(k, k);
  }

  lemma {:induction false} ColumnsSize(o: Hex, k: nat, n: nat)
    requires n <= 2 * k + 1
    ensures 2 * |Columns(o, k, n)| == TwiceCells(k, n)
  {
    if n > 0 {
      ColumnsSize(o, k, n - 1);
      ColumnAdds(o, k, n);
      TwiceCellsStep(k, n);
    }
  }

  lemma {:induction false} NoRepeatsSize(cells: seq<Hex>)
    requires forall i, j :: 0 <= i < j < |cells| ==> cells[i] != cells[j]
    ensures |set h | h in cells| == |cells|
  {
    if cells != [] {
      var n := |cells| - 1;
      NoRepeatsSize(cells[..n]);
      assert (set h | h in cells) == (set h | h in cells[..n]) + {cells[n]};
    }
  }

  /** The disk of k hops has 3k(k+1) + 1 cells. */
  lemma DiskSize(cells: seq<Hex>, o: Hex, k: nat)
    requires Lists(cells, o, k)
    ensures |cells| == 3 * k * (k + 1) + 1
  {
    NoRepeatsSize(cells);
    ColumnsSize(o, k, 2 * k + 1);
    forall h: Hex ensures h in cells <==> h in Columns(o, k, 2 * k + 1) {
      DiskIffGridNorm(o, h, k);
      ColumnOfDisk(k, h.x - o.x, h.y - o.y);
      ColumnsHold(o, k, 2 * k + 1, h);
    }
    assert (set h | h in cells) == Columns(o, k, 2 * k + 1);
    assert 2 * |cells| == TwiceCells(k, 2 * k + 1) == 2 * Total(k);
  }

  // ---------- ring sizing ----------

  const CELL_CIRCUMRADIUS_M: real := 400.0

  function Ceil(x: real): int { -((-x).Floor) }

  function RingForRadius(radiusM: real): (k: int)
    ensures k >= 1 && radiusM <= 400.0 * k as real
    ensures k > 1 ==> 400.0 * (k - 1) as real < radiusM
  {
    var k := Ceil(radiusM / CELL_CIRCUMRADIUS_M);
    if k < 1 then 1 else k
  }

  /** p and q differ by at least n along one of the three lattice directions. */
  predicate Apart(p: Point, q: Point, n: real) {
    var du, dv := q.u - p.u, q.v - p.v;
    n <= du || n <= -du || n <= dv || n <= -dv || n <= du + dv || n <= -(du + dv)
  }

  /** Points of two hexagons whose grid coordinates differ by n differ by at least n - 4/3 in some lattice direction. */
  lemma CoordinateGap(p: Point, q: Point, o: Hex, h: Hex)
    requires Inside(p, o) && Inside(q, h)
    ensures Apart(p, q, Hops(o, h) as real - 4.0 / 3.0)
  {
    var a, b := p.u - o.x as real, p.v - o.y as real;
    assert -2.0 / 3.0 <= a <= 2.0 / 3.0 && -2.0 / 3.0 <= b <= 2.0 / 3.0 && -2.0 / 3.0 <= a + b <= 2.0 / 3.0;
    var e, f := q.u - h.x as real, q.v - h.y as real;
    assert -2.0 / 3.0 <= e <= 2.0 / 3.0 && -2.0 / 3.0 <= f <= 2.0 / 3.0 && -2.0 / 3.0 <= e + f <= 2.0 / 3.0;
  }

  lemma SquareOrder(a: real, b: real)
    requires 0.0 <= a <= b
    ensures a * a <= b * b
  {}

  lemma NormBounds(u: real, v: real)
    ensures 4.0 * Norm(u, v) >= 3.0 * u * u
    ensures 4.0 * Norm(u, v) >= 3.0 * v * v
    ensures 4.0 * Norm(u, v) >= 3.0 * (u + v) * (u + v)
  {
    SquareNotNegative(u + 2.0 * v);
    SquareNotNegative(v + 2.0 * u);
    SquareNotNegative(u - v);
    assert 4.0 * Norm(u, v) - 3.0 * u * u == (u + 2.0 * v) * (u + 2.0 * v);
    assert 4.0 * Norm(u, v) - 3.0 * v * v == (v + 2.0 * u) * (v + 2.0 * u);
    assert 4.0 * Norm(u, v) - 3.0 * (u + v) * (u + v) == (u - v) * (u - v);
  }

  /** A lattice gap of n costs at least 1.5*c*n metres. */
  lemma GapCosts(c: real, p: Point, q: Point, n: real)
    requires c > 0.0 && n >= 0.0 && Apart(p, q, n)
    ensures (1.5 * c * n) * (1.5 * c * n) <= Dist2(c, p, q)
  {
    var du, dv := q.u - p.u, q.v - p.v;
    var w := if n <= du || n <= -du then du else if n <= dv || n <= -dv then dv else du + dv;
    var absW := if w < 0.0 then -w else w;
    SquareOrder(n, absW);
    NormBounds(du, dv);
    assert w * w == absW * absW && 3.0 * n * n <= 4.0 * Norm(du, dv);
    var k := Scale(c, 0.75);
    ScaleOrder(k, 3.0 * n * n, 4.0 * Norm(du, dv));
    assert k * (3.0 * n * n) == (1.5 * c * n) * (1.5 * c * n);
    assert k * (4.0 * Norm(du, dv)) == 3.0 * c * c * Norm(du, dv);
  }

  predicate Within(c: real, p: Point, q: Point, r: real) {
    0.0 <= r && Dist2(c, p, q) <= r * r
  }

  // ---------- how far apart cells are ----------

  function Sq(x: real): real { x * x }

  lemma SqOrder(a: real, b: real)
    requires 0.0 <= a <= b || 0.0 <= a <= -b
    ensures Sq(a) <= Sq(b)
  {
    SquareOrder(a, AbsR(b));
  }

  /** Squared distance, in circumradii, between two cells n hops apart at their nearest: along the row of corners for
      even n, one half-step off it for odd n. */
  function Reach2(n: nat): real {
    Sq(1.5 * n as real - 2.0) + if n % 2 == 1 then 0.75 else 0.0
  }

  /** The same in square metres. */
  function ReachM2(c: real, n: nat): real { Reach2(n) * (c * c) }

  lemma OddGapSlack(f: real, z: real)
    requires f >= 5.0 / 3.0 && 0.0 <= z
    ensures 3.0 * Sq(f + z / 3.0) + Sq(1.0 - z) >= 3.0 * Sq(f) + 1.0
  {
    assert 3.0 * Sq(f + z / 3.0) + Sq(1.0 - z) == 3.0 * Sq(f) + 1.0 + 2.0 * (z * (f - 1.0)) + 4.0 / 3.0 * (z * z);
    SquareNotNegative(z);
    assert z * (f - 1.0) >= 0.0;
  }

  /** s and r are the two coordinates of a centre offset with respect to one of the three axes, so they have the same
      parity; a and b are those of the offset of the two points from their centres. */
  lemma OddGap(n: nat, s: int, r: int, a: real, b: real)
    requires n >= 3 && n % 2 == 1 && s >= n && (s - r) % 2 == 0
    requires -4.0 <= 3.0 * a + b <= 4.0 && -4.0 <= 3.0 * a - b <= 4.0 && -2.0 <= b <= 2.0
    ensures 3.0 * Sq(s as real + a) + Sq(r as real + b) >= 3.0 * Sq(n as real - 4.0 / 3.0) + 1.0
  {
    var g, t, f, z := s as real + a, r as real + b, n as real - 4.0 / 3.0, AbsR(b);
    SquareNotNegative(t);
    if s == n && z < 1.0 {
      assert r >= 1 || r <= -1;
      SqOrder(1.0 - z, t);
      SqOrder(f + z / 3.0, g);
      OddGapSlack(f, z);
    } else {
      SqOrder(f + 1.0 / 3.0, g);
      assert Sq(f + 1.0 / 3.0) == Sq(f) + 2.0 / 3.0 * f + 1.0 / 9.0;
    }
  }

  /** The offsets of the two points from their centres, together. */
  predicate Offset(a: real, b: real) {
    -2.0 <= 2.0 * a + b <= 2.0 && -2.0 <= a + 2.0 * b <= 2.0 && -2.0 <= a - b <= 2.0
  }

  // Four times the norm is three times the square along an axis plus the square across it, for each of the three axes.

  lemma OddAlongU(n: nat, x: int, y: int, a: real, b: real)
    requires n >= 3 && n % 2 == 1 && x >= n && Offset(a, b)
    ensures 4.0 * Norm(x as real + a, y as real + b) >= 3.0 * Sq(n as real - 4.0 / 3.0) + 1.0
  {
    var u, v := x as real + a, y as real + b;
    OddGap(n, x, x + 2 * y, a, a + 2.0 * b);
    assert (x + 2 * y) as real + (a + 2.0 * b) == u + 2.0 * v;
    assert 4.0 * Norm(u, v) == 3.0 * Sq(u) + Sq(u + 2.0 * v);
  }

  lemma OddAlongV(n: nat, x: int, y: int, a: real, b: real)
    requires n >= 3 && n % 2 == 1 && y >= n && Offset(a, b)
    ensures 4.0 * Norm(x as real + a, y as real + b) >= 3.0 * Sq(n as real - 4.0 / 3.0) + 1.0
  {
    var u, v := x as real + a, y as real + b;
    OddGap(n, y, 2 * x + y, b, 2.0 * a + b);
    assert (2 * x + y) as real + (2.0 * a + b) == 2.0 * u + v;
    assert 4.0 * Norm(u, v) == 3.0 * Sq(v) + Sq(2.0 * u + v);
  }

  lemma OddAlongSum(n: nat, x: int, y: int, a: real, b: real)
    requires n >= 3 && n % 2 == 1 && x + y >= n && Offset(a, b)
    ensures 4.0 * Norm(x as real + a, y as real + b) >= 3.0 * Sq(n as real - 4.0 / 3.0) + 1.0
  {
    var u, v := x as real + a, y as real + b;
    OddGap(n, x + y, x - y, a + b, a - b);
    assert (x + y) as real + (a + b) == u + v && (x - y) as real + (a - b) == u - v;
    assert 4.0 * Norm(u, v) == 3.0 * Sq(u + v) + Sq(u - v);
  }

  lemma OddForward(n: nat, x: int, y: int, a: real, b: real)
    requires n >= 3 && n % 2 == 1 && (x >= n || y >= n || x + y >= n) && Offset(a, b)
    ensures 4.0 * Norm(x as real + a, y as real + b) >= 3.0 * Sq(n as real - 4.0 / 3.0) + 1.0
  {
    if x >= n {
      OddAlongU(n, x, y, a, b);
    } else if y >= n {
      OddAlongV(n, x, y, a, b);
    } else {
      OddAlongSum(n, x, y, a, b);
    }
  }

  lemma NormOfOpposite(u: real, v: real)
    ensures Norm(-u, -v) == Norm(u, v)
  {}

  /** Points of cells at least an odd n hops apart are no nearer than this, in lattice terms. */
  lemma OddNorm(n: nat, x: int, y: int, a: real, b: real)
    requires n >= 3 && n % 2 == 1 && GridNorm(x, y) >= n && Offset(a, b)
    ensures 4.0 * Norm(x as real + a, y as real + b) >= 3.0 * Sq(n as real - 4.0 / 3.0) + 1.0
  {
    if x >= n || y >= n || x + y >= n {
      OddForward(n, x, y, a, b);
    } else {
      OddForward(n, -x, -y, -a, -b);
      NormOfOpposite(x as real + a, y as real + b);
      assert (-x) as real + (-a) == -(x as real + a) && (-y) as real + (-b) == -(y as real + b);
    }
  }

  lemma Regroup(c: real, t: real)
    ensures (3.0 * t) * (c * c) == 3.0 * c * c * t
  {}

  lemma ScaleByArea(c: real, a: real, b: real)
    requires c > 0.0 && a <= b
    ensures a * (c * c) <= b * (c * c)
  {
    ScaleOrder(c, a, b);
    ScaleOrder(c, a * c, b * c);
    assert c * (a * c) == a * (c * c) && c * (b * c) == b * (c * c);
  }

  lemma EvenReachInGap(c: real, n: nat, f: real, d2: real)
    requires n % 2 == 0 && f == n as real - 4.0 / 3.0 && (1.5 * c * f) * (1.5 * c * f) <= d2
    ensures ReachM2(c, n) <= d2
  {
    var g := 1.5 * f;
    assert g == 1.5 * n as real - 2.0;
    assert (1.5 * c * f) * (1.5 * c * f) == (g * g) * (c * c);
  }

  lemma HopsApart(n: nat, p: Point, o: Hex, q: Point, h: Hex)
    requires Inside(p, o) && Inside(q, h) && Hops(o, h) >= n
    ensures Apart(p, q, n as real - 4.0 / 3.0)
  {
    CoordinateGap(p, q, o, h);
  }

  lemma EvenReach(c: real, n: nat, p: Point, q: Point)
    requires c > 0.0 && n >= 2 && n % 2 == 0 && Apart(p, q, n as real - 4.0 / 3.0)
    ensures ReachM2(c, n) <= Dist2(c, p, q)
  {
    var f := n as real - 4.0 / 3.0;
    GapCosts(c, p, q, f);
    EvenReachInGap(c, n, f, Dist2(c, p, q));
  }

  lemma OddReachInNorm(n: nat, t: real)
    requires n % 2 == 1 && 4.0 * t >= 3.0 * Sq(n as real - 4.0 / 3.0) + 1.0
    ensures Reach2(n) <= 3.0 * t
  {
    var f := n as real - 4.0 / 3.0;
    assert 1.5 * n as real - 2.0 == 1.5 * f && Sq(1.5 * f) == 2.25 * Sq(f);
  }

  lemma OddReachOfPoints(n: nat, p: Point, o: Hex, q: Point, h: Hex)
    requires n >= 3 && n % 2 == 1 && Inside(p, o) && Inside(q, h) && Hops(o, h) >= n
    ensures Reach2(n) <= 3.0 * Norm(q.u - p.u, q.v - p.v)
  {
    var du, dv, x, y := q.u - p.u, q.v - p.v, h.x - o.x, h.y - o.y;
    var a, b := du - x as real, dv - y as real;
    assert x as real + a == du && y as real + b == dv;
    OddNorm(n, x, y, a, b);
    OddReachInNorm(n, Norm(du, dv));
  }

  lemma OddReach(c: real, n: nat, t: real)
    requires c > 0.0 && Reach2(n) <= 3.0 * t
    ensures ReachM2(c, n) <= 3.0 * c * c * t
  {
    ScaleByArea(c, Reach2(n), 3.0 * t);
    Regroup(c, t);
  }

  /** No two points of cells at least n hops apart are nearer than the n-th reach. */
  lemma ReachIsLowerBound(c: real, n: nat, p: Point, o: Hex, q: Point, h: Hex)
    requires c > 0.0 && n >= 2 && Inside(p, o) && Inside(q, h) && Hops(o, h) >= n
    ensures ReachM2(c, n) <= Dist2(c, p, q)
  {
    if n % 2 == 0 {
      HopsApart(n, p, o, q, h);
      EvenReach(c, n, p, q);
    } else {
      OddReachOfPoints(n, p, o, q, h);
      OddReach(c, n, Norm(q.u - p.u, q.v - p.v));
    }
  }

  /** The nearest corners of the origin cell and of a cell n hops away. */
  lemma ReachIsAttained(c: real, n: nat) returns (p: Point, o: Hex, q: Point, h: Hex)
    requires n >= 2
    ensures Inside(p, o) && Inside(q, h) && Hops(o, h) == n
    ensures Dist2(c, p, q) == ReachM2(c, n)
  {
    var m := n / 2;
    var M := m as real;
    p, o := Point(1.0 / 3.0, 1.0 / 3.0), Hex(0, 0);
    if n % 2 == 0 {
      q, h := Point(M - 1.0 / 3.0, M - 1.0 / 3.0), Hex(m, m);
      var w := M - 2.0 / 3.0;
      assert q.u - p.u == w && q.v - p.v == w;
      assert Norm(w, w) == 3.0 * Sq(w);
      assert 1.5 * n as real - 2.0 == 3.0 * w && Sq(3.0 * w) == 9.0 * Sq(w);
      Regroup(c, Norm(w, w));
    } else {
      q, h := Point(M + 2.0 / 3.0, M - 1.0 / 3.0), Hex(m + 1, m);
      var u, v := M + 1.0 / 3.0, M - 2.0 / 3.0;
      assert q.u - p.u == u && q.v - p.v == v;
      assert 3.0 * Norm(u, v) == 9.0 * (M * M) - 3.0 * M + 1.0;
      assert 1.5 * n as real - 2.0 == 3.0 * M - 0.5;
      assert Sq(3.0 * M - 0.5) == 9.0 * (M * M) - 3.0 * M + 0.25;
      Regroup(c, Norm(u, v));
    }
  }

  lemma PointIsCovered(c: real, j: nat, r: real, p: Point, o: Hex, q: Point, h: Hex)
    requires c > 0.0 && j >= 1 && r * r < ReachM2(c, j + 1)
    requires Inside(p, o) && Inside(q, h) && Dist2(c, p, q) <= r * r
    ensures InDisk(o, h, j)
  {
    DiskIffGridNorm(o, h, j);
    if Hops(o, h) >= j + 1 { ReachIsLowerBound(c, j + 1, p, o, q, h); }
  }

  // ---------- the planned ring covers ----------

  lemma StrictSquareOrder(a: real, b: real)
    requires 0.0 <= a < b
    ensures a * a < b * b
  {
    Positive(b - a, b + a);
    assert b * b - a * a == (b - a) * (b + a);
  }

  lemma SquareOfProduct(f: real, c: real)
    ensures (f * c) * (f * c) == Sq(f) * (c * c)
  {}

  /** k hops cover every radius below (1.5*k - 0.5) circumradii. */
  lemma DiskCovers(c: real, k: nat, r: real, p: Point, o: Hex, q: Point, h: Hex)
    requires c > 0.0 && k >= 1 && r < (1.5 * k as real - 0.5) * c
    requires Inside(p, o) && Inside(q, h) && Within(c, p, q, r)
    ensures InDisk(o, h, k)
  {
    var f := 1.5 * k as real - 0.5;
    StrictSquareOrder(r, f * c);
    SquareOfProduct(f, c);
    assert f == 1.5 * (k + 1) as real - 2.0;
    ScaleByArea(c, Sq(f), Reach2(k + 1));
    PointIsCovered(c, k, r, p, o, q, h);
  }

  ghost predicate RingCovers(c: real) {
    forall r: real, p: Point, o: Hex, q: Point, h: Hex ::
      Inside(p, o) && Inside(q, h) && Within(c, p, q, r) ==> InDisk(o, h, RingForRadius(r))
  }

  /** Two facing corners, one side length apart, of cells two hops away from each other. */
  lemma CornersMissed(c: real)
    requires 0.0 < c <= CELL_CIRCUMRADIUS_M
    ensures !RingCovers(c)
  {
    var p, o, q, h := Point(1.0 / 3.0, 1.0 / 3.0), Hex(0, 0), Point(2.0 / 3.0, 2.0 / 3.0), Hex(1, 1);
    assert Norm(q.u - p.u, q.v - p.v) == 1.0 / 3.0;
    assert Dist2(c, p, q) == 3.0 * c * c * (1.0 / 3.0) == c * c;
    assert Inside(p, o) && Inside(q, h) && Within(c, p, q, c);
    assert RingForRadius(c) == 1;
    DiskIffGridNorm(o, h, 1);
    assert !InDisk(o, h, RingForRadius(c));
  }

  /** The ring that RingForRadius plans misses nothing, for every radius and every point of the origin cell, exactly
      when hexagons are larger than the 400 m the code takes as their circumradius. */
  lemma RingCoversIff(c: real)
    requires c > 0.0
    ensures RingCovers(c) <==> c > CELL_CIRCUMRADIUS_M
  {
    if c > CELL_CIRCUMRADIUS_M {
      forall r: real, p: Point, o: Hex, q: Point, h: Hex | Inside(p, o) && Inside(q, h) && Within(c, p, q, r)
        ensures InDisk(o, h, RingForRadius(r))
      {
        var k := RingForRadius(r);
        var f := 1.5 * k as real - 0.5;
        assert r <= 400.0 * k as real <= f * 400.0;
        Positive(f, c - 400.0);
        assert f * c == f * 400.0 + f * (c - 400.0);
        DiskCovers(c, k, r, p, o, q, h);
      }
    } else {
      CornersMissed(c);
    }
  }

  // ---------- how small a ring would do ----------

  /** j hops cover radius r around every point of the origin cell. */
  ghost predicate Covers(c: real, j: nat, r: real) {
    forall p: Point, o: Hex, q: Point, h: Hex ::
      Inside(p, o) && Inside(q, h) && Within(c, p, q, r) ==> InDisk(o, h, j)
  }

  lemma CornerIsMissed(c: real, j: nat, r: real) returns (p: Point, o: Hex, q: Point, h: Hex)
    requires j >= 1 && ReachM2(c, j + 1) <= r * r
    ensures Inside(p, o) && Inside(q, h) && Dist2(c, p, q) <= r * r && !InDisk(o, h, j)
  {
    p, o, q, h := ReachIsAttained(c, j + 1);
    DiskIffGridNorm(o, h, j);
  }

  /** j >= 1 hops cover a radius exactly when it stays below the reach of j + 1 hops. */
  lemma CoversIff(c: real, j: nat, r: real)
    requires c > 0.0 && j >= 1 && r >= 0.0
    ensures Covers(c, j, r) <==> r * r < ReachM2(c, j + 1)
  {
    if r * r < ReachM2(c, j + 1) {
      forall p: Point, o: Hex, q: Point, h: Hex | Inside(p, o) && Inside(q, h) && Within(c, p, q, r)
        ensures InDisk(o, h, j)
      {
        PointIsCovered(c, j, r, p, o, q, h);
      }
    } else {
      var p, o, q, h := CornerIsMissed(c, j, r);
      assert Within(c, p, q, r) && !InDisk(o, h, j);
    }
  }

  lemma NoDistance(c: real, p: Point, r: real)
    ensures Dist2(c, p, p) <= r * r
  {
    assert Norm(0.0, 0.0) == 0.0;
    SquareNotNegative(r);
  }

  /** The origin cell alone covers nothing: a point on its border is also in the neighbour. */
  lemma OriginAloneNeverCovers(c: real, r: real)
    requires r >= 0.0
    ensures !Covers(c, 0, r)
  {
    var p, o, h := Point(0.5, 0.0), Hex(0, 0), Hex(1, 0);
    NoDistance(c, p, r);
    assert Inside(p, o) && Inside(p, h) && Within(c, p, p, r) && !InDisk(o, h, 0);
  }

  lemma PlannedRingCovers(c: real, r: real)
    requires c > CELL_CIRCUMRADIUS_M
    ensures Covers(c, RingForRadius(r), r)
  {
    RingCoversIff(c);
  }

  lemma MoreHopsCoverMore(c: real, i: nat, j: nat, r: real)
    requires i <= j && Covers(c, i, r)
    ensures Covers(c, j, r)
  {
    forall p: Point, o: Hex, q: Point, h: Hex | Inside(p, o) && Inside(q, h) && Within(c, p, q, r)
      ensures InDisk(o, h, j)
    {
      DiskIffGridNorm(o, h, i);
      DiskIffGridNorm(o, h, j);
    }
  }

  /** k hops cover radius r and fewer do not. */
  ghost predicate Minimum(c: real, k: nat, r: real) {
    Covers(c, k, r) && forall j :: 0 <= j < k ==> !Covers(c, j, r)
  }

  /** When the planned ring is the minimum one that its comment promises: when the radius stays below the nearest
      corners of the cells one hop further out, as it always does above 400 m, and the ring is a single hop or the
      radius reaches the nearest corners of the cells at its own hop distance. */
  lemma RingMinimumIff(c: real, r: real)
    requires c > 0.0 && r >= 0.0
    ensures var k := RingForRadius(r);
            Minimum(c, k, r) <==> r * r < ReachM2(c, k + 1) && (k == 1 || r * r >= ReachM2(c, k))
    ensures c > CELL_CIRCUMRADIUS_M ==> r * r < ReachM2(c, RingForRadius(r) + 1)
  {
    var k := RingForRadius(r);
    CoversIff(c, k, r);
    if c > CELL_CIRCUMRADIUS_M { PlannedRingCovers(c, r); }
    OriginAloneNeverCovers(c, r);
    if k > 1 {
      CoversIff(c, k - 1, r);
      forall j | 0 <= j < k && Covers(c, j, r) ensures Covers(c, k - 1, r) { MoreHopsCoverMore(c, j, k - 1, r); }
    }
  }

  /** For radii above 1200 m it never is: a smaller ring covers whenever the planned one is sure to. */
  lemma FarRingNeverMinimum(c: real, r: real)
    requires c > CELL_CIRCUMRADIUS_M && r > 1200.0
    ensures !Minimum(c, RingForRadius(r), r)
  {
    var k := RingForRadius(r);
    var f := 1.5 * k as real - 2.0;
    assert k >= 4 && r <= 400.0 * k as real <= 400.0 * f;
    Positive(f, c - 400.0);
    assert f * c == f * 400.0 + f * (c - 400.0);
    StrictSquareOrder(r, f * c);
    SquareOfProduct(f, c);
    ScaleByArea(c, Sq(f), Reach2(k));
    RingMinimumIff(c, r);
  }
}
