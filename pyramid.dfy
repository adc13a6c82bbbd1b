/**
 * The zoom pyramid of one image: the levels read from the descriptor
 * document, their pixel sizes, the choice of level in `load_tiles`, the
 * lossy/lossless decision at the JPEG size cap, and the grid of tiles
 * fetched and pasted for a level.
 */
module Pyramid {
  import opened Wrappers

  /** One `pyramid_level` of the descriptor (`ZoomLevelInfo`); `num` is its position. */
  datatype ZoomLevel = ZoomLevel(num: int, tilesX: int, tilesY: int, emptyX: int, emptyY: int)

  /** The tile size and the levels, lowest resolution first. */
  datatype Descriptor = Descriptor(tileWidth: int, tileHeight: int, levels: seq<ZoomLevel>)

  /** `ZoomLevelInfo.size`: the level's pixel width and height. */
  function Size(d: Descriptor, l: ZoomLevel): (int, int)
  {
    (l.tilesX * d.tileWidth - l.emptyX, l.tilesY * d.tileHeight - l.emptyY)
  }

  /** `ZoomLevelInfo.total_tiles` */
  function TotalTiles(l: ZoomLevel): int
  {
    l.tilesX * l.tilesY
  }

  /** The largest width or height the JPEG encoder accepts. */
  const JpegLimit: int := 65535

  /** The image is written as PNG exactly when a side exceeds the JPEG limit. */
  predicate NeedsPng(size: (int, int))
  {
    size.0 > JpegLimit || size.1 > JpegLimit
  }

  /** `s[i]` with Python's reading of a negative index as counted from the end. */
  function PyIndex<T>(s: seq<T>, i: int): T
    requires -|s| <= i < |s|
  {
    if i < 0 then s[|s| + i] else s[i]
  }

  /** `ZeroDivisionError` of `z %= len(tile_info)` when there are no levels. */
  datatype ZoomError = NoLevels

  /**
   * The level index `load_tiles` uses for a requested `z` among `n` levels:
   * a `z` at or above `n` is replaced by `n - 1`, then `z %= n`. Python's
   * `%` with a positive divisor agrees with Dafny's, negative `z` included.
   */
  function NormalizeZoom(z: int, n: nat): (r: Result<nat, ZoomError>)
    ensures r.Err? <==> n == 0
    ensures r.Ok? ==> r.value < n
    ensures n > 0 && z < n ==> r == Ok(z % n)
    ensures z >= n > 0 ==> r == Ok(n - 1)
  {
    if n == 0 then Err(NoLevels)
    else
      var c := if z >= n then n - 1 else z;
      Ok(c % n)
  }

  /** A requested zoom in Python's index range selects the level Python's `tile_info[z]` names. */
  lemma NormalizeZoomAgreesWithIndex(levels: seq<ZoomLevel>, z: int)
    requires -|levels| <= z < |levels|
    ensures NormalizeZoom(z, |levels|).Ok?
    ensures levels[NormalizeZoom(z, |levels|).value] == PyIndex(levels, z)
  {
  }

  /** The documented case: with five levels, zoom -1 is level 4. */
  lemma NormalizeZoomExample()
    ensures NormalizeZoom(-1, 5) == Ok(4)
  {
  }

  /** `range(n)` has no elements when `n` is negative. */
  function Count(n: int): nat
  {
    if n < 0 then 0 else n
  }

  /** The tiles of column `x`: `(x, 0), ..., (x, ny - 1)`. */
  function Column(x: nat, ny: int): seq<(nat, nat)>
  {
    seq(Count(ny), j requires 0 <= j < Count(ny) => (x, j))
  }

  /** `itertools.product(range(nx), range(ny))`: x in the outer loop, y in the inner. */
  function Grid(nx: int, ny: int): seq<(nat, nat)>
    decreases nx
  {
    if nx <= 0 then [] else Grid(nx - 1, ny) + Column(nx - 1, ny)
  }

  lemma MulAtLeast(n: int, k: int)
    requires n > 0 && k >= 1
    ensures n * k >= n
    decreases k
  {
    if k > 1 {
      MulAtLeast(n, k - 1);
      assert n * k == n * (k - 1) + n;
    }
  }

  /** Division by `n` recovers the quotient and remainder it was built from. */
  lemma DivModUnique(q: int, j: int, n: int)
    requires n > 0 && 0 <= j < n
    ensures (q * n + j) / n == q && (q * n + j) % n == j
  {
    var a := q * n + j;
    var q', j' := a / n, a % n;
    assert a == n * q' + j';
    var k := q' - q;
    assert n * k == n * q' - n * q;
    assert n * k == j - j';
    if k >= 1 {
      MulAtLeast(n, k);
    } else if k <= -1 {
      MulAtLeast(n, -k);
    }
  }

  /**
   * The grid lists `nx * ny` tiles, and tile `i` is `(i / ny, i % ny)`:
   * x-major order.
   */
  lemma {:induction false} GridAt(nx: nat, ny: nat)
    ensures |Grid(nx, ny)| == nx * ny
    ensures forall i :: 0 <= i < nx * ny ==> Grid(nx, ny)[i] == (i / ny, i % ny)
  {
    if nx > 0 {
      GridAt(nx - 1, ny);
      var g, prev := Grid(nx, ny), Grid(nx - 1, ny);
      assert g == prev + Column(nx - 1, ny);
      assert |prev| == (nx - 1) * ny;
      assert nx * ny == (nx - 1) * ny + ny;
      forall i | 0 <= i < nx * ny
        ensures g[i] == (i / ny, i % ny)
      {
        if i >= |prev| {
          DivModUnique(nx - 1, i - |prev|, ny);
          assert i == (nx - 1) * ny + (i - |prev|);
        }
      }
    }
  }

  /**
   * Every tile of the `nx` by `ny` grid is listed exactly once, at
   * position `x * ny + y`, and nothing else is listed.
   */
  lemma GridExactlyOnce(nx: nat, ny: nat)
    ensures |Grid(nx, ny)| == nx * ny
    ensures forall i :: 0 <= i < |Grid(nx, ny)| ==> Grid(nx, ny)[i].0 < nx && Grid(nx, ny)[i].1 < ny
    ensures forall x: nat, y: nat, i :: x < nx && y < ny && 0 <= i < |Grid(nx, ny)| ==>
      (Grid(nx, ny)[i] == (x, y) <==> i == x * ny + y)
  {
    GridAt(nx, ny);
    var g := Grid(nx, ny);
    forall i | 0 <= i < |g|
      ensures g[i].0 < nx && g[i].1 < ny
    {
      DivBelow(i, nx, ny);
    }
    forall x: nat, y: nat, i | x < nx && y < ny && 0 <= i < |g|
      ensures g[i] == (x, y) <==> i == x * ny + y
    {
      if i == x * ny + y {
        DivModUnique(x, y, ny);
      }
      if g[i] == (x, y) {
        assert i == (i / ny) * ny + i % ny;
      }
    }
  }

  lemma DivBelow(i: int, nx: nat, ny: nat)
    requires 0 <= i < nx * ny
    ensures ny > 0 && 0 <= i / ny < nx
  {
    if ny > 0 && i / ny >= nx {
      MulMono(nx, i / ny, ny);
    }
  }

  /** The level's grid lists `total_tiles` tiles. */
  lemma GridSize(l: ZoomLevel)
    requires l.tilesX >= 0 && l.tilesY >= 0
    ensures |Grid(l.tilesX, l.tilesY)| == TotalTiles(l)
  {
    GridAt(l.tilesX, l.tilesY);
  }

  /** The pixel at which tile `(x, y)` is pasted. */
  function TileOrigin(d: Descriptor, x: nat, y: nat): (int, int)
  {
    (x * d.tileWidth, y * d.tileHeight)
  }

  /** Pixel `(px, py)` lies in the rectangle of tile `(x, y)`. */
  predicate InTile(d: Descriptor, x: nat, y: nat, px: int, py: int)
  {
    var o := TileOrigin(d, x, y);
    o.0 <= px < o.0 + d.tileWidth && o.1 <= py < o.1 + d.tileHeight
  }

  /** Along one axis, a pixel lies in the span of exactly one tile: the one at `p / w`. */
  lemma SpanOwner(x: nat, w: int, p: int)
    requires w > 0 && x * w <= p < x * w + w
    ensures p / w == x
  {
    DivModUnique(x, p - x * w, w);
  }

  /** Distinct tiles are pasted on disjoint rectangles, so the paste order does not matter. */
  lemma TilesDisjoint(d: Descriptor, x: nat, y: nat, x': nat, y': nat, px: int, py: int)
    requires d.tileWidth > 0 && d.tileHeight > 0
    requires InTile(d, x, y, px, py) && InTile(d, x', y', px, py)
    ensures x == x' && y == y'
  {
    SpanOwner(x, d.tileWidth, px);
    SpanOwner(x', d.tileWidth, px);
    SpanOwner(y, d.tileHeight, py);
    SpanOwner(y', d.tileHeight, py);
  }

  /** Along one axis, pixel `p` lies in the span of tile `p / w`. */
  lemma SpanOfPixel(p: int, w: int)
    requires w > 0
    ensures (p / w) * w <= p < (p / w) * w + w
  {
    assert p == w * (p / w) + p % w;
  }

  /**
   * When the trims are not negative, so that the canvas is no larger than
   * the tile grid, every pixel of the canvas lies in a tile of the grid:
   * the one at `(px / tileWidth, py / tileHeight)`.
   */
  lemma CanvasPixelInGrid(d: Descriptor, l: ZoomLevel, px: int, py: int)
    requires d.tileWidth > 0 && d.tileHeight > 0 && l.tilesX >= 0 && l.tilesY >= 0
    requires 0 <= l.emptyX && 0 <= l.emptyY
    requires 0 <= px < Size(d, l).0 && 0 <= py < Size(d, l).1
    ensures (px / d.tileWidth, py / d.tileHeight) in Grid(l.tilesX, l.tilesY)
    ensures InTile(d, px / d.tileWidth, py / d.tileHeight, px, py)
  {
    var w, h, nx, ny := d.tileWidth, d.tileHeight, l.tilesX, l.tilesY;
    var x, y := px / w, py / h;
    SpanOfPixel(px, w);
    SpanOfPixel(py, h);
    DivBelow(px, nx, w);
    DivBelow(py, ny, h);
    RowBound(x, y, nx, ny);
    GridAt(nx, ny);
    DivModUnique(x, y, ny);
    var i := x * ny + y;
    assert Grid(nx, ny)[i] == (i / ny, i % ny);
  }

  /**
   * When fewer than one tile's worth of pixels is trimmed on each axis,
   * every tile of the grid starts on the canvas.
   */
  lemma GridTileOnCanvas(d: Descriptor, l: ZoomLevel, x: nat, y: nat)
    requires d.tileWidth > 0 && d.tileHeight > 0
    requires l.emptyX < d.tileWidth && l.emptyY < d.tileHeight
    requires x < l.tilesX && y < l.tilesY
    ensures 0 <= TileOrigin(d, x, y).0 < Size(d, l).0
    ensures 0 <= TileOrigin(d, x, y).1 < Size(d, l).1
  {
    var w, h := d.tileWidth, d.tileHeight;
    MulMono(x, l.tilesX - 1, w);
    MulMono(y, l.tilesY - 1, h);
    assert (l.tilesX - 1) * w == l.tilesX * w - w;
    assert (l.tilesY - 1) * h == l.tilesY * h - h;
  }

  /** A negative extent gives no tiles, like `range` of a negative number. */
  lemma {:induction false} GridCount(nx: int, ny: int)
    ensures Grid(nx, ny) == Grid(Count(nx), Count(ny))
    decreases Count(nx)
  {
    if nx > 0 {
      GridCount(nx - 1, ny);
      assert Column(nx - 1, ny) == Column(nx - 1, Count(ny));
    }
  }

  lemma RowBound(x: nat, y: nat, nx: nat, ny: nat)
    requires x < nx && y < ny
    ensures x * ny + y < nx * ny
  {
    MulMono(x, nx - 1, ny);
  }

  lemma MulMono(a: int, b: int, c: nat)
    requires a <= b
    ensures a * c <= b * c
  {
  }
}
