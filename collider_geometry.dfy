/**
 * The geometry of internal/colliders: colliders as axis-aligned rectangles, the cells of the
 * chunked spatial hash (colliderMap.go) and the edge tests and edge-cell runs the sweep uses
 * (collider.go). Coordinates are exact reals; Go's float-to-int truncation and truncating
 * integer division are written out.
 */
module ColliderGeometry {
  import opened Utils

  /** A collider tag (a game-state flag); two of them name the built-in layers. */
  datatype Tag = AllColliders | EnvironmentCollider | Flag(id: int)

  /** A point in world coordinates (WorldCoords). */
  datatype Point = Point(x: real, y: real)

  /** A `*Collider2D`, by identity. */
  type ColliderId = nat

  /**
   * The data of a Collider2D. The callbacks are not data: their calls are recorded as events.
   * `parent` is the game object the collider belongs to, compared by value.
   */
  datatype Collider = Collider(tags: seq<Tag>, center: Point, width: real, height: real,
                               block: seq<Tag>, ignore: seq<Tag>, parent: nat)

  /** `equals`: same center, size, tag sequence (order matters) and parent; Block and Ignore play no part. */
  predicate Equals(c1: Collider, c2: Collider)
  {
    c1.center == c2.center && c1.width == c2.width && c1.height == c2.height
    && c1.tags == c2.tags && c1.parent == c2.parent
  }

  /** `equals` is an equivalence, and colliders differing only in Block and Ignore are equal. */
  lemma EqualsIsEquivalence(c1: Collider, c2: Collider, c3: Collider)
    ensures Equals(c1, c1)
    ensures Equals(c1, c2) ==> Equals(c2, c1)
    ensures Equals(c1, c2) && Equals(c2, c3) ==> Equals(c1, c3)
    ensures Equals(c1, c1.(block := c2.block, ignore := c2.ignore))
  {
  }

  /** Moving a collider makes it unequal to its old self. */
  lemma MovedIsNotEqual(c: Collider, p: Point)
    requires p != c.center
    ensures !Equals(c, c.(center := p))
  {
  }

  /** Go's `int(x)` on a float: truncation toward zero. */
  function Trunc(x: real): (r: int)
    ensures x >= 0.0 ==> r as real <= x < r as real + 1.0
    ensures x < 0.0 ==> r as real - 1.0 < x <= r as real
  {
    if x >= 0.0 then x.Floor else -((-x).Floor)
  }

  lemma TruncMonotone(x: real, y: real)
    requires x <= y
    ensures Trunc(x) <= Trunc(y)
  {
  }

  /** Go's integer `/` for a positive divisor: the quotient truncated toward zero. */
  function GoDiv(a: int, b: int): (q: int)
    requires b > 0
    ensures a >= 0 ==> q >= 0
    ensures a < 0 ==> q <= 0
  {
    if a >= 0 then DivNonNeg(a, b); a / b else DivNonNeg(-a, b); -((-a) / b)
  }

  /** The quotient rounds toward zero: the remainder takes the sign of the dividend and stays below the divisor. */
  lemma GoDivTruncates(a: int, b: int)
    requires b > 0
    ensures a >= 0 ==> 0 <= a - b * GoDiv(a, b) < b
    ensures a < 0 ==> -b < a - b * GoDiv(a, b) <= 0
  {
    if a >= 0 {
      DivNonNeg(a, b);
    } else {
      DivNonNeg(-a, b);
    }
  }

  /** Euclidean division of a non-negative number: a non-negative quotient and remainder below the divisor. */
  lemma DivNonNeg(a: int, b: int)
    requires a >= 0 && b > 0
    ensures a / b >= 0 && 0 <= a - b * (a / b) < b
  {
    var q := a / b;
    assert a == b * q + a % b;
    if q < 0 {
      MulMonotone(b, q, -1);
      assert false;
    }
  }

  lemma {:induction false} MulMonotone(b: int, x: int, y: int)
    requires b > 0 && x <= y
    ensures b * x <= b * y
    decreases y - x
  {
    if x < y {
      MulMonotone(b, x, y - 1);
      assert b * y == b * (y - 1) + b;
    }
  }

  lemma GoDivMonotone(a1: int, a2: int, b: int)
    requires b > 0 && a1 <= a2
    ensures GoDiv(a1, b) <= GoDiv(a2, b)
  {
    var q1 := GoDiv(a1, b);
    var q2 := GoDiv(a2, b);
    GoDivTruncates(a1, b);
    GoDivTruncates(a2, b);
    if q1 > q2 {
      MulMonotone(b, q2 + 1, q1);
    }
  }

  /** Cell 0 spans both sides of the origin: every coordinate strictly between -b and b truncates to it. */
  lemma GoDivZeroCell(a: int, b: int)
    requires b > 0 && -b < a < b
    ensures GoDiv(a, b) == 0
  {
    var q := GoDiv(a, b);
    GoDivTruncates(a, b);
    if q >= 1 {
      MulMonotone(b, 1, q);
    } else if q <= -1 {
      MulMonotone(b, q, -1);
    }
  }

  /** One cell of the spatial hash (colliderMapCoords). */
  datatype Cell = Cell(x: int, y: int)

  /** A ColliderMap2D: the collider list of each cell, and the cell size. */
  datatype Layer = Layer(cells: map<Cell, seq<ColliderId>>, chunkX: int, chunkY: int)

  predicate WellChunked(layer: Layer)
  {
    layer.chunkX > 0 && layer.chunkY > 0
  }

  /** A missing cell reads as an empty list. */
  function CellAt(layer: Layer, c: Cell): seq<ColliderId>
  {
    if c in layer.cells then layer.cells[c] else []
  }

  /** worldCoordsToColliderCoords: truncate each coordinate, then divide by the cell size. */
  function CellOf(layer: Layer, p: Point): Cell
    requires WellChunked(layer)
  {
    Cell(GoDiv(Trunc(p.x), layer.chunkX), GoDiv(Trunc(p.y), layer.chunkY))
  }

  /** Points further right or up never land in a cell further left or down. */
  lemma CellOfMonotone(layer: Layer, p: Point, q: Point)
    requires WellChunked(layer)
    ensures p.x <= q.x ==> CellOf(layer, p).x <= CellOf(layer, q).x
    ensures p.y <= q.y ==> CellOf(layer, p).y <= CellOf(layer, q).y
  {
    if p.x <= q.x {
      TruncMonotone(p.x, q.x);
      GoDivMonotone(Trunc(p.x), Trunc(q.x), layer.chunkX);
    }
    if p.y <= q.y {
      TruncMonotone(p.y, q.y);
      GoDivMonotone(Trunc(p.y), Trunc(q.y), layer.chunkY);
    }
  }

  /** No cell occurs twice. */
  predicate NoDupCells(s: seq<Cell>)
  {
    forall i, j :: 0 <= i < j < |s| ==> s[i] != s[j]
  }

  /** The cells (x, y0), (x, y0 + 1), ... of one column, bottom to top. */
  function Column(x: int, y0: int, ny: nat): seq<Cell>
  {
    seq(ny, k => Cell(x, y0 + k))
  }

  /** The column holds exactly the cells (x, y0) to (x, y0 + ny - 1). */
  lemma ColumnMembers(x: int, y0: int, ny: nat)
    ensures |Column(x, y0, ny)| == ny
    ensures forall c :: c in Column(x, y0, ny) <==> c.x == x && y0 <= c.y < y0 + ny
  {
    var col := Column(x, y0, ny);
    forall c: Cell
      ensures c in col <==> c.x == x && y0 <= c.y < y0 + ny
    {
      if c.x == x && y0 <= c.y < y0 + ny {
        assert col[c.y - y0] == c;
      }
    }
  }

  /**
   * The `nx` by `ny` block of cells with bottom-left cell (x0, y0), column by column from the
   * left, each column bottom to top: the order of getColliderCoords' nested loops.
   */
  function Grid(x0: int, nx: nat, y0: int, ny: nat): seq<Cell>
  {
    if nx == 0 then []
    else Grid(x0, nx - 1, y0, ny) + Column(x0 + nx - 1, y0, ny)
  }

  /** The grid holds exactly the cells of the block. */
  lemma {:induction false} GridMembers(x0: int, nx: nat, y0: int, ny: nat)
    ensures forall c :: c in Grid(x0, nx, y0, ny) <==> x0 <= c.x < x0 + nx && y0 <= c.y < y0 + ny && ny > 0
  {
    if nx > 0 {
      var rest := Grid(x0, nx - 1, y0, ny);
      var col := Column(x0 + nx - 1, y0, ny);
      GridMembers(x0, nx - 1, y0, ny);
      ColumnMembers(x0 + nx - 1, y0, ny);
      forall c: Cell
        ensures c in rest + col <==> x0 <= c.x < x0 + nx && y0 <= c.y < y0 + ny && ny > 0
      {
        assert c in rest + col <==> c in rest || c in col;
      }
    }
  }

  /** The grid has `nx * ny` cells. */
  lemma {:induction false} GridSize(x0: int, nx: nat, y0: int, ny: nat)
    ensures |Grid(x0, nx, y0, ny)| == nx * ny
  {
    if nx > 0 {
      GridSize(x0, nx - 1, y0, ny);
      ColumnMembers(x0 + nx - 1, y0, ny);
      assert (nx - 1) * ny + ny == nx * ny;
    }
  }

  lemma {:induction false} GridNoDup(x0: int, nx: nat, y0: int, ny: nat)
    ensures NoDupCells(Grid(x0, nx, y0, ny))
  {
    if nx > 0 {
      GridNoDup(x0, nx - 1, y0, ny);
      GridMembers(x0, nx - 1, y0, ny);
      ColumnMembers(x0 + nx - 1, y0, ny);
      var a := Grid(x0, nx - 1, y0, ny);
      var b := Column(x0 + nx - 1, y0, ny);
      forall i, j | 0 <= i < j < |a + b|
        ensures (a + b)[i] != (a + b)[j]
      {
        if i < |a| && j >= |a| {
          assert (a + b)[i] in a && (a + b)[j] in b;
        }
      }
    }
  }

  /**
   * getColliderCoords of a collider centered at `center` (and getPrevColliderCoords, which is
   * the same computation at the previous center): the cells from the cell of the bottom-left
   * corner to the cell of the top-right corner.
   */
  function Footprint(layer: Layer, center: Point, width: real, height: real): (fp: seq<Cell>)
    requires WellChunked(layer) && width >= 0.0 && height >= 0.0
  {
    var top := center.y + height / 2.0;
    var bottom := center.y - height / 2.0;
    var left := center.x - width / 2.0;
    var right := center.x + width / 2.0;
    var topLeft := CellOf(layer, Point(left, top));
    var bottomLeft := CellOf(layer, Point(left, bottom));
    var topRight := CellOf(layer, Point(right, top));
    CellOfMonotone(layer, Point(left, top), Point(right, top));
    CellOfMonotone(layer, Point(left, bottom), Point(left, top));
    Grid(bottomLeft.x, topRight.x - topLeft.x + 1, bottomLeft.y, topLeft.y - bottomLeft.y + 1)
  }

  /**
   * The footprint is exactly the inclusive rectangle of cells between the corner cells, each
   * cell once, `(Δx + 1) * (Δy + 1)` of them.
   */
  lemma FootprintIsRectangle(layer: Layer, center: Point, width: real, height: real)
    requires WellChunked(layer) && width >= 0.0 && height >= 0.0
    ensures var lo := CellOf(layer, Point(center.x - width / 2.0, center.y - height / 2.0));
            var hi := CellOf(layer, Point(center.x + width / 2.0, center.y + height / 2.0));
            var fp := Footprint(layer, center, width, height);
      lo.x <= hi.x && lo.y <= hi.y
      && (forall c :: c in fp <==> lo.x <= c.x <= hi.x && lo.y <= c.y <= hi.y)
      && NoDupCells(fp)
      && |fp| == (hi.x - lo.x + 1) * (hi.y - lo.y + 1)
  {
    var lo := CellOf(layer, Point(center.x - width / 2.0, center.y - height / 2.0));
    var hi := CellOf(layer, Point(center.x + width / 2.0, center.y + height / 2.0));
    var fp := Footprint(layer, center, width, height);
    FootprintIsGrid(layer, center, width, height);
    GridRectangle(fp, lo, hi);
  }

  /** The footprint is the grid spanned by its bottom-left and top-right corner cells. */
  lemma FootprintIsGrid(layer: Layer, center: Point, width: real, height: real)
    requires WellChunked(layer) && width >= 0.0 && height >= 0.0
    ensures var lo := CellOf(layer, Point(center.x - width / 2.0, center.y - height / 2.0));
            var hi := CellOf(layer, Point(center.x + width / 2.0, center.y + height / 2.0));
      lo.x <= hi.x && lo.y <= hi.y
      && Footprint(layer, center, width, height) == Grid(lo.x, hi.x - lo.x + 1, lo.y, hi.y - lo.y + 1)
  {
    CellOfMonotone(layer, Point(center.x - width / 2.0, center.y - height / 2.0), Point(center.x + width / 2.0, center.y + height / 2.0));
    CellOfAxes(layer, Point(center.x - width / 2.0, center.y - height / 2.0), Point(center.x + width / 2.0, center.y + height / 2.0));
  }

  /** The cell of a point takes its column from the point's x and its row from the point's y. */
  lemma CellOfAxes(layer: Layer, p: Point, q: Point)
    requires WellChunked(layer)
    ensures CellOf(layer, Point(p.x, q.y)) == Cell(CellOf(layer, p).x, CellOf(layer, q).y)
  {
  }

  /** The grid between two corner cells holds exactly the cells between them, each once. */
  lemma GridRectangle(g: seq<Cell>, lo: Cell, hi: Cell)
    requires lo.x <= hi.x && lo.y <= hi.y && g == Grid(lo.x, hi.x - lo.x + 1, lo.y, hi.y - lo.y + 1)
    ensures forall c :: c in g <==> lo.x <= c.x <= hi.x && lo.y <= c.y <= hi.y
    ensures NoDupCells(g)
    ensures |g| == (hi.x - lo.x + 1) * (hi.y - lo.y + 1)
  {
    GridMembers(lo.x, hi.x - lo.x + 1, lo.y, hi.y - lo.y + 1);
    GridSize(lo.x, hi.x - lo.x + 1, lo.y, hi.y - lo.y + 1);
    GridNoDup(lo.x, hi.x - lo.x + 1, lo.y, hi.y - lo.y + 1);
  }

  /** No cell occurs twice in a footprint. */
  lemma FootprintNoDup(layer: Layer, center: Point, width: real, height: real)
    requires WellChunked(layer) && width >= 0.0 && height >= 0.0
    ensures NoDupCells(Footprint(layer, center, width, height))
  {
    FootprintIsRectangle(layer, center, width, height);
  }

  /** Every footprint holds the cell of the collider's center. */
  lemma FootprintHoldsCenter(layer: Layer, center: Point, width: real, height: real)
    requires WellChunked(layer) && width >= 0.0 && height >= 0.0
    ensures CellOf(layer, center) in Footprint(layer, center, width, height)
  {
    FootprintIsRectangle(layer, center, width, height);
    CellOfMonotone(layer, Point(center.x - width / 2.0, center.y - height / 2.0), center);
    CellOfMonotone(layer, center, Point(center.x + width / 2.0, center.y + height / 2.0));
  }

  /**
   * horizontalEdgeIds: the cells of the row of the left end, from the left end's column to the
   * right end's column, left to right.
   */
  function HorizontalEdgeIds(left: Point, right: Point, layer: Layer): (ids: seq<Cell>)
    requires WellChunked(layer) && left.x <= right.x
    ensures var l := CellOf(layer, left); var r := CellOf(layer, right);
      |ids| == r.x - l.x + 1 && (forall c :: c in ids <==> c.y == l.y && l.x <= c.x <= r.x)
      && forall i :: 0 <= i < |ids| ==> ids[i] == Cell(l.x + i, l.y)
  {
    var l := CellOf(layer, left);
    var r := CellOf(layer, right);
    CellOfMonotone(layer, left, right);
    var ids := seq(r.x - l.x + 1, i => Cell(l.x + i, l.y));
    assert forall c :: c in ids ==> c.y == l.y && l.x <= c.x <= r.x;
    assert forall c: Cell :: c.y == l.y && l.x <= c.x <= r.x ==> ids[c.x - l.x] == c;
    ids
  }

  /**
   * verticalEdgeIds: the cells of the column of the lower end, from the lower end's row to the
   * upper end's row, bottom to top.
   */
  function VerticalEdgeIds(down: Point, up: Point, layer: Layer): (ids: seq<Cell>)
    requires WellChunked(layer) && down.y <= up.y
    ensures var d := CellOf(layer, down); var u := CellOf(layer, up);
      |ids| == u.y - d.y + 1 && (forall c :: c in ids <==> c.x == d.x && d.y <= c.y <= u.y)
      && forall i :: 0 <= i < |ids| ==> ids[i] == Cell(d.x, d.y + i)
  {
    var d := CellOf(layer, down);
    var u := CellOf(layer, up);
    CellOfMonotone(layer, down, up);
    var ids := seq(u.y - d.y + 1, i => Cell(d.x, d.y + i));
    assert forall c :: c in ids ==> c.x == d.x && d.y <= c.y <= u.y;
    assert forall c: Cell :: c.x == d.x && d.y <= c.y <= u.y ==> ids[c.y - d.y] == c;
    ids
  }

  /**
   * verticalEdgeIntersec: whether the horizontal segment from `pLeft` to `pRight` (at the
   * height of `pLeft`) touches a vertical side of `other`.
   */
  predicate VerticalEdgeIntersec(pLeft: Point, pRight: Point, other: Collider)
  {
    var leftX := other.center.x - other.width / 2.0;
    var rightX := other.center.x + other.width / 2.0;
    if pRight.x < leftX || pLeft.x > rightX then false
    else if pLeft.y < other.center.y - other.height / 2.0 || pLeft.y > other.center.y + other.height / 2.0 then false
    else pLeft.x <= leftX || pRight.x >= rightX
  }

  /**
   * horizontalEdgeIntersec: whether the vertical segment from `pDown` to `pUp` (at the x of
   * `pUp`) touches a horizontal side of `other`.
   */
  predicate HorizontalEdgeIntersec(pDown: Point, pUp: Point, other: Collider)
  {
    var downY := other.center.y - other.height / 2.0;
    var upY := other.center.y + other.height / 2.0;
    if pUp.y < downY || pDown.y > upY then false
    else if pUp.x < other.center.x - other.width / 2.0 || pUp.x > other.center.x + other.width / 2.0 then false
    else pDown.y <= downY || pUp.y >= upY
  }

  /**
   * For an ordered segment and a rectangle of nonnegative width, the vertical-edge test holds
   * exactly when the segment's height is within the rectangle's and the segment contains the
   * x of the left side or of the right side. A segment strictly inside reports nothing.
   */
  lemma VerticalEdgeIntersecMeaning(pLeft: Point, pRight: Point, other: Collider)
    requires pLeft.x <= pRight.x && other.width >= 0.0
    ensures var leftX := other.center.x - other.width / 2.0;
            var rightX := other.center.x + other.width / 2.0;
      VerticalEdgeIntersec(pLeft, pRight, other) <==>
        other.center.y - other.height / 2.0 <= pLeft.y <= other.center.y + other.height / 2.0
        && ((pLeft.x <= leftX <= pRight.x) || (pLeft.x <= rightX <= pRight.x))
  {
  }

  /** The mirror image: a vertical segment against the bottom and top sides. */
  lemma HorizontalEdgeIntersecMeaning(pDown: Point, pUp: Point, other: Collider)
    requires pDown.y <= pUp.y && other.height >= 0.0
    ensures var downY := other.center.y - other.height / 2.0;
            var upY := other.center.y + other.height / 2.0;
      HorizontalEdgeIntersec(pDown, pUp, other) <==>
        other.center.x - other.width / 2.0 <= pUp.x <= other.center.x + other.width / 2.0
        && ((pDown.y <= downY <= pUp.y) || (pDown.y <= upY <= pUp.y))
  {
  }
}
