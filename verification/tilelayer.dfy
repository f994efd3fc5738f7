/**
 * `src/components/map/TileLayer.tsx`: which map tiles cover a viewport.
 * Viewport bounds, zoom and tile size are integers here (pixel
 * coordinates); the tile size is positive. Rows outside the Mercator
 * range are skipped, columns wrap around the globe, and each tile gets a
 * URL from the template and its offset from the viewport's corner.
 */
module TileLayer {
  import opened Text

  datatype Viewport = Viewport(minX: int, maxX: int, minY: int, maxY: int)

  datatype Tile = Tile(x: int, y: int, url: string, left: int, top: int)

  /** The layer's inputs that stay fixed while tiles are enumerated. */
  datatype Layer = Layer(viewport: Viewport, zoom: nat, tileSize: int, template: string, subdomains: seq<string>)

  const DefaultTemplate := "https://tile.openstreetmap.org/{z}/{x}/{y}.png"
  const DefaultSubdomains := ["a", "b", "c", "d"]

  /** `Math.pow(2, zoom)`. */
  function Pow2(z: nat): (n: int)
    ensures n >= 1
  {
    if z == 0 then 1 else 2 * Pow2(z - 1)
  }

  /** `Math.floor(v / size)`. */
  function TileIndex(v: int, size: int): (t: int)
    requires size > 0
    ensures size * t <= v < size * (t + 1)
  {
    v / size
  }

  /** JavaScript's `a % b` for `b > 0`: the remainder takes the sign of `a`. */
  function JsRem(a: int, b: int): (r: int)
    requires b > 0
    ensures -b < r < b
    ensures a >= 0 ==> 0 <= r
    ensures a <= 0 ==> r <= 0
    ensures (a - r) % b == 0
  {
    if a >= 0 then
      assert a - a % b == b * (a / b);
      MultipleMod(a / b, b);
      a % b
    else
      assert a + (-a) % b == b * -((-a) / b);
      MultipleMod(-((-a) / b), b);
      -((-a) % b)
  }

  /** A multiple of `b` leaves no remainder. */
  lemma MultipleMod(q: int, b: int)
    requires b > 0
    ensures (b * q) % b == 0
  {
    ModUnique(b * q, b, q, 0);
  }

  /** `((x % n) + n) % n`. */
  function WrapX(x: int, n: int): (w: int)
    requires n > 0
    ensures 0 <= w < n
  {
    JsRem(JsRem(x, n) + n, n)
  }

  /** `a = q * n + r` with `0 <= r < n` pins down the remainder. */
  lemma ModUnique(a: int, n: int, q: int, r: int)
    requires n > 0 && 0 <= r < n && a == q * n + r
    ensures a % n == r
  {
    var q2, r2 := a / n, a % n;
    assert a == q2 * n + r2;
    assert (q - q2) * n == r2 - r;
    if q > q2 {
      MulAtLeast(q - q2, n);
    } else if q < q2 {
      MulAtLeast(q2 - q, n);
    }
  }

  lemma MulAtLeast(k: int, n: int)
    requires k >= 1 && n > 0
    ensures k * n >= n
  {
    assert k * n == (k - 1) * n + n;
    assert (k - 1) * n >= 0;
  }

  /** The wrapped column is the mathematical remainder: it lies in `[0, n)` and differs from `x` by a multiple of `n`. */
  lemma WrapXIsModulo(x: int, n: int)
    requires n > 0
    ensures WrapX(x, n) == x % n
    ensures (x - WrapX(x, n)) % n == 0
  {
    var r := JsRem(x, n);
    var s := r + n;
    if x >= 0 {
      assert r == x % n;
      ModUnique(s, n, 1, r);
      assert WrapX(x, n) == r;
      ModUnique(x - r, n, x / n, 0);
    } else {
      var k, m := (-x) / n, (-x) % n;
      assert -x == k * n + m;
      assert r == -m;
      if m == 0 {
        ModUnique(s, n, 1, 0);
        ModUnique(x, n, -k, 0);
        assert x - 0 == -k * n;
        ModUnique(x - 0, n, -k, 0);
      } else {
        ModUnique(s, n, 0, n - m);
        assert x == (-k - 1) * n + (n - m);
        ModUnique(x, n, -k - 1, n - m);
        assert x - (n - m) == (-k - 1) * n;
        ModUnique(x - (n - m), n, -k - 1, 0);
      }
    }
  }

  /** `subdomains[Math.abs(wrappedX + y) % subdomains.length] || ""`. */
  function Subdomain(subs: seq<string>, w: int, y: int): (s: string)
    requires w >= 0 && y >= 0
    ensures |subs| == 0 ==> s == ""
    ensures |subs| > 0 ==> s in subs
  {
    if |subs| == 0 then "" else subs[(w + y) % |subs|]
  }

  /** Row `y` is drawn: it lies in `[0, 2^zoom)`. */
  predicate ValidRow(l: Layer, y: int) {
    0 <= y < Pow2(l.zoom)
  }

  /** The template with the first `{z}`, `{x}`, `{y}` and `{s}` replaced, in that order. */
  function TileUrl(template: string, z: string, x: string, y: string, s: string): string {
    ReplaceFirst(ReplaceFirst(ReplaceFirst(ReplaceFirst(template, "{z}", z), "{x}", x), "{y}", y), "{s}", s)
  }

  /** The tile drawn at column `x`, row `y`. */
  function MakeTile(l: Layer, x: int, y: int): (t: Tile)
    requires l.tileSize > 0 && ValidRow(l, y)
    ensures t.x == x && t.y == y
    ensures t.left == x * l.tileSize - l.viewport.minX && t.top == y * l.tileSize - l.viewport.minY
  {
    var w := WrapX(x, Pow2(l.zoom));
    var url := TileUrl(l.template, NatToDecimal(l.zoom), NatToDecimal(w), NatToDecimal(y), Subdomain(l.subdomains, w, y));
    Tile(x, y, url, x * l.tileSize - l.viewport.minX, y * l.tileSize - l.viewport.minY)
  }

  /** The tiles of column `x` for rows `ylo..yhi`, invalid rows skipped. */
  function ColumnTiles(l: Layer, x: int, ylo: int, yhi: int): (r: seq<Tile>)
    requires l.tileSize > 0
    decreases yhi - ylo
  {
    if yhi < ylo then []
    else ColumnTiles(l, x, ylo, yhi - 1) + (if ValidRow(l, yhi) then [MakeTile(l, x, yhi)] else [])
  }

  /** The tiles of columns `xlo..xhi`, each column's rows `ylo..yhi` in order. */
  function GridTiles(l: Layer, xlo: int, xhi: int, ylo: int, yhi: int): (r: seq<Tile>)
    requires l.tileSize > 0
    decreases xhi - xlo
  {
    if xhi < xlo then []
    else GridTiles(l, xlo, xhi - 1, ylo, yhi) + ColumnTiles(l, xhi, ylo, yhi)
  }

  /** The tile ranges the viewport needs. */
  function MinTileX(l: Layer): int requires l.tileSize > 0 { TileIndex(l.viewport.minX, l.tileSize) }
  function MaxTileX(l: Layer): int requires l.tileSize > 0 { TileIndex(l.viewport.maxX, l.tileSize) }
  function MinTileY(l: Layer): int requires l.tileSize > 0 { TileIndex(l.viewport.minY, l.tileSize) }
  function MaxTileY(l: Layer): int requires l.tileSize > 0 { TileIndex(l.viewport.maxY, l.tileSize) }

  /** The `useMemo` body: every tile of the viewport, column by column. */
  function Tiles(l: Layer): (r: seq<Tile>)
    requires l.tileSize > 0
  {
    GridTiles(l, MinTileX(l), MaxTileX(l), MinTileY(l), MaxTileY(l))
  }

  /** A column holds exactly the valid rows of its range. */
  lemma {:induction false} ColumnTilesMembers(l: Layer, x: int, ylo: int, yhi: int, t: Tile)
    requires l.tileSize > 0
    ensures t in ColumnTiles(l, x, ylo, yhi) <==>
      t.x == x && ylo <= t.y <= yhi && ValidRow(l, t.y) && t == MakeTile(l, x, t.y)
    decreases yhi - ylo
  {
    if yhi >= ylo {
      ColumnTilesMembers(l, x, ylo, yhi - 1, t);
      var init := ColumnTiles(l, x, ylo, yhi - 1);
      var last := if ValidRow(l, yhi) then [MakeTile(l, x, yhi)] else [];
      assert ColumnTiles(l, x, ylo, yhi) == init + last;
      assert t in init + last <==> t in init || t in last;
    }
  }

  /** The grid holds exactly the valid tiles of its ranges. */
  lemma {:induction false} GridTilesMembers(l: Layer, xlo: int, xhi: int, ylo: int, yhi: int, t: Tile)
    requires l.tileSize > 0
    ensures t in GridTiles(l, xlo, xhi, ylo, yhi) <==>
      xlo <= t.x <= xhi && ylo <= t.y <= yhi && ValidRow(l, t.y) && t == MakeTile(l, t.x, t.y)
    decreases xhi - xlo
  {
    if xhi >= xlo {
      GridTilesMembers(l, xlo, xhi - 1, ylo, yhi, t);
      ColumnTilesMembers(l, xhi, ylo, yhi, t);
    }
  }

  /** The number of rows of `ylo..yhi` that are drawn. */
  function ValidRowCount(l: Layer, ylo: int, yhi: int): (n: nat)
    decreases yhi - ylo
  {
    if yhi < ylo then 0 else ValidRowCount(l, ylo, yhi - 1) + (if ValidRow(l, yhi) then 1 else 0)
  }

  /** A column has one tile per drawn row. */
  lemma {:induction false} ColumnTilesCount(l: Layer, x: int, ylo: int, yhi: int)
    requires l.tileSize > 0
    ensures |ColumnTiles(l, x, ylo, yhi)| == ValidRowCount(l, ylo, yhi)
    decreases yhi - ylo
  {
    if yhi >= ylo {
      ColumnTilesCount(l, x, ylo, yhi - 1);
    }
  }

  /** The grid has one tile per column and drawn row. */
  lemma {:induction false} GridTilesCount(l: Layer, xlo: int, xhi: int, ylo: int, yhi: int)
    requires l.tileSize > 0
    ensures |GridTiles(l, xlo, xhi, ylo, yhi)| == (if xhi < xlo then 0 else xhi - xlo + 1) * ValidRowCount(l, ylo, yhi)
    decreases xhi - xlo
  {
    if xhi >= xlo {
      GridTilesCount(l, xlo, xhi - 1, ylo, yhi);
      ColumnTilesCount(l, xhi, ylo, yhi);
      var g := GridTiles(l, xlo, xhi - 1, ylo, yhi);
      var c := ColumnTiles(l, xhi, ylo, yhi);
      assert |GridTiles(l, xlo, xhi, ylo, yhi)| == |g| + |c|;
      MulSucc(xhi - xlo, ValidRowCount(l, ylo, yhi));
    }
  }

  lemma MulSucc(m: int, k: int)
    ensures (m + 1) * k == m * k + k
  {
  }

  /**
   * The tiles of the viewport: each one sits in the viewport's tile
   * ranges on a drawn row, and every such position has its tile.
   */
  lemma TilesMembers(l: Layer, t: Tile)
    requires l.tileSize > 0
    ensures t in Tiles(l) <==>
      && MinTileX(l) <= t.x <= MaxTileX(l) && MinTileY(l) <= t.y <= MaxTileY(l)
      && 0 <= t.y < Pow2(l.zoom) && t == MakeTile(l, t.x, t.y)
  {
    GridTilesMembers(l, MinTileX(l), MaxTileX(l), MinTileY(l), MaxTileY(l), t);
  }

  /** The first column and row start at or before the viewport's corner, less than a tile before it. */
  lemma FirstTileCoversCorner(l: Layer)
    requires l.tileSize > 0 && ValidRow(l, MinTileY(l))
    ensures var t := MakeTile(l, MinTileX(l), MinTileY(l));
      -l.tileSize < t.left <= 0 && -l.tileSize < t.top <= 0
  {
    MulSucc(MinTileX(l), l.tileSize);
    MulSucc(MinTileY(l), l.tileSize);
    assert l.tileSize * (MinTileX(l) + 1) == MinTileX(l) * l.tileSize + l.tileSize;
    assert l.tileSize * (MinTileY(l) + 1) == MinTileY(l) * l.tileSize + l.tileSize;
  }

  /** A decimal number holds no `{`. */
  lemma NoBraceInNumber(n: nat)
    ensures '{' !in NatToDecimal(n)
  {
    var d := NatToDecimal(n);
    assert forall i :: 0 <= i < |d| ==> d[i] != '{';
  }

  lemma NoBraceConcat(a: string, b: string)
    requires '{' !in a && '{' !in b
    ensures '{' !in a + b
  {
  }

  /** The default template, cut at its placeholders. */
  lemma DefaultTemplateParts()
    ensures DefaultTemplate == "https://tile.openstreetmap.org/" + "{z}" + "/" + "{x}" + "/" + "{y}" + ".png"
  {
  }

  /**
   * A template with one `{z}`, `{x}` and `{y}` each, in that order, and no
   * other `{`: the three values land in the three places.
   */
  lemma FillThreeSlots(h: string, m1: string, m2: string, t: string, z: string, x: string, y: string, s: string)
    requires '{' !in h && '{' !in m1 && '{' !in m2 && '{' !in t
    requires '{' !in z && '{' !in x && '{' !in y
    ensures TileUrl(h + "{z}" + m1 + "{x}" + m2 + "{y}" + t, z, x, y, s) == h + z + m1 + x + m2 + y + t
  {
    var u1 := ReplaceFirst(h + "{z}" + m1 + "{x}" + m2 + "{y}" + t, "{z}", z);
    FillZ(h, m1, m2, t, z);
    var u2 := ReplaceFirst(u1, "{x}", x);
    FillX(h + z + m1, m2 + "{y}" + t, x);
    var u3 := ReplaceFirst(u2, "{y}", y);
    FillY(h + z + m1, x, m2, t, y);
    NoHeadNoMatch(u3, "{s}");
  }

  /** The `{z}` slot of a three-slot template. */
  lemma FillZ(h: string, m1: string, m2: string, t: string, z: string)
    requires '{' !in h
    ensures ReplaceFirst(h + "{z}" + m1 + "{x}" + m2 + "{y}" + t, "{z}", z) == (h + z + m1) + "{x}" + (m2 + "{y}" + t)
  {
    var r1 := m1 + "{x}" + m2 + "{y}" + t;
    Regroup(h, m1, m2, t, z);
    ReplaceFirstAt(h, "{z}", r1, z);
  }

  /** The concatenations `FillZ` moves between. */
  lemma Regroup(h: string, m1: string, m2: string, t: string, z: string)
    ensures h + "{z}" + m1 + "{x}" + m2 + "{y}" + t == h + "{z}" + (m1 + "{x}" + m2 + "{y}" + t)
    ensures h + z + (m1 + "{x}" + m2 + "{y}" + t) == (h + z + m1) + "{x}" + (m2 + "{y}" + t)
  {
  }

  /** The `{x}` slot, once `{z}` is filled. */
  lemma FillX(a1: string, r2: string, x: string)
    requires '{' !in a1
    ensures ReplaceFirst(a1 + "{x}" + r2, "{x}", x) == a1 + x + r2
  {
    ReplaceFirstAt(a1, "{x}", r2, x);
  }

  /** The `{y}` slot, once `{z}` and `{x}` are filled; what is left holds no `{`. */
  lemma FillY(a1: string, x: string, m2: string, t: string, y: string)
    requires '{' !in a1 && '{' !in x && '{' !in m2 && '{' !in t && '{' !in y
    ensures ReplaceFirst(a1 + x + (m2 + "{y}" + t), "{y}", y) == a1 + x + m2 + y + t
    ensures '{' !in a1 + x + m2 + y + t
  {
    var a2 := a1 + x + m2;
    assert a1 + x + (m2 + "{y}" + t) == a2 + "{y}" + t;
    NoBraceConcat(a1, x);
    NoBraceConcat(a1 + x, m2);
    ReplaceFirstAt(a2, "{y}", t, y);
    NoBraceConcat(a2, y);
    NoBraceConcat(a2 + y, t);
  }

  /** With the default template, the URL is the OpenStreetMap path `z/x/y`; the template has no `{s}`. */
  lemma DefaultTemplateUrl(z: string, x: string, y: string, s: string)
    requires '{' !in z && '{' !in x && '{' !in y
    ensures TileUrl(DefaultTemplate, z, x, y, s) == "https://tile.openstreetmap.org/" + z + "/" + x + "/" + y + ".png"
  {
    DefaultTemplateParts();
    FillThreeSlots("https://tile.openstreetmap.org/", "/", "/", ".png", z, x, y, s);
  }

  /** A tile drawn with the default template points at its zoom, wrapped column and row. */
  lemma DefaultTileUrl(l: Layer, x: int, y: int)
    requires l.tileSize > 0 && ValidRow(l, y) && l.template == DefaultTemplate
    ensures MakeTile(l, x, y).url == "https://tile.openstreetmap.org/" + NatToDecimal(l.zoom) + "/"
      + NatToDecimal(WrapX(x, Pow2(l.zoom))) + "/" + NatToDecimal(y) + ".png"
  {
    var w := WrapX(x, Pow2(l.zoom));
    NoBraceInNumber(l.zoom);
    NoBraceInNumber(w);
    NoBraceInNumber(y);
    DefaultTemplateUrl(NatToDecimal(l.zoom), NatToDecimal(w), NatToDecimal(y), Subdomain(l.subdomains, w, y));
  }

  /** The inner loop of the `useMemo` body: the drawn tiles of column `x`. */
  method EnumerateColumn(l: Layer, x: int, minY: int, maxY: int) returns (column: seq<Tile>)
    requires l.tileSize > 0
    ensures column == ColumnTiles(l, x, minY, maxY)
  {
    var n := Pow2(l.zoom);
    column := [];
    var y := minY;
    while y <= maxY
      invariant minY <= y <= (if maxY < minY then minY else maxY + 1)
      invariant column == ColumnTiles(l, x, minY, y - 1)
      decreases maxY - y
    {
      if y < 0 || y >= n {
        y := y + 1;
        continue;
      }
      column := column + [MakeTile(l, x, y)];
      y := y + 1;
    }
  }

  /** The outer loop of the `useMemo` body, which pushes each column's tiles. */
  method EnumerateTiles(l: Layer) returns (result: seq<Tile>)
    requires l.tileSize > 0
    ensures result == Tiles(l)
  {
    var minX, maxX, minY, maxY := MinTileX(l), MaxTileX(l), MinTileY(l), MaxTileY(l);
    result := [];
    var x := minX;
    while x <= maxX
      invariant minX <= x <= (if maxX < minX then minX else maxX + 1)
      invariant result == GridTiles(l, minX, x - 1, minY, maxY)
      decreases maxX - x
    {
      var column := EnumerateColumn(l, x, minY, maxY);
      result := result + column;
      x := x + 1;
    }
  }
}
