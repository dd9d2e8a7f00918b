/** The tile grid: window-sized constants, row-major indexing, map creation,
    the coordinate walk that draws it, and the per-tile state of a level. */
module Maps {
  import opened Rectangles

  /** Largest x and y coordinates of the window; it is 80 tiles wide and 50 high. */
  const WINDOW_WIDTH: int := 79
  const WINDOW_HEIGHT: int := 49

  /** Row width and row count of the window grid. */
  const COLUMNS: int := WINDOW_WIDTH + 1
  const ROWS: int := WINDOW_HEIGHT + 1

  datatype TileType = Floor | Wall

  /** (x, y) is a cell of the window grid. */
  predicate InWindow(x: int, y: int) {
    0 <= x <= WINDOW_WIDTH && 0 <= y <= WINDOW_HEIGHT
  }

  /** (x, y) lies on the outermost ring of the window grid. */
  predicate OnBorder(x: int, y: int) {
    x == 0 || x == WINDOW_WIDTH || y == 0 || y == WINDOW_HEIGHT
  }

  /** Row-major decoding: the cell (x, y) of a grid `width` wide is recovered
      from its index by `% width` and `/ width`. */
  lemma RowMajorDecode(width: int, x: int, y: int)
    requires 0 <= x < width && 0 <= y
    ensures (y * width + x) % width == x && (y * width + x) / width == y
  {
    var i := y * width + x;
    var q, r := i / width, i % width;
    assert i == width * q + r && 0 <= r < width;
    if q > y {
      MulMonotone(y + 1, q, width);
      assert false;
    } else if q < y {
      MulMonotone(q + 1, y, width);
      assert false;
    }
  }

  lemma MulMonotone(a: int, b: int, c: int)
    requires a <= b && 0 <= c
    ensures a * c <= b * c
  {
    assert b * c - a * c == (b - a) * c;
  }

  /** Row-major layout of a width × height grid: a cell inside a row decodes
      back to itself, and a cell inside the grid has an index below width * height. */
  lemma RowMajor(width: int, height: int, x: int, y: int)
    requires 0 <= x && 0 <= y
    ensures x < width ==> (y * width + x) % width == x && (y * width + x) / width == y
    ensures x < width && y < height ==> y * width + x < width * height
  {
    if x < width {
      RowMajorDecode(width, x, y);
      if y < height {
        assert y * width <= (height - 1) * width;
      }
    }
  }

  /** `xy_idx` of the window grid. The `as usize` casts of negative
      coordinates are ruled out. */
  function XyIdx(x: int, y: int): (i: int)
    requires 0 <= x && 0 <= y
    ensures 0 <= i
    ensures InWindow(x, y) ==> i < COLUMNS * ROWS && i % COLUMNS == x && i / COLUMNS == y
  {
    y * COLUMNS + x
  }

  /** Every window index is the index of exactly the cell (i % 80, i / 80). */
  lemma XyIdxInverse(i: int)
    requires 0 <= i < COLUMNS * ROWS
    ensures InWindow(i % COLUMNS, i / COLUMNS) && XyIdx(i % COLUMNS, i / COLUMNS) == i
  {
  }

  /** Different window cells have different indices. */
  lemma XyIdxInjective(x1: int, y1: int, x2: int, y2: int)
    requires InWindow(x1, y1) && InWindow(x2, y2)
    requires XyIdx(x1, y1) == XyIdx(x2, y2)
    ensures x1 == x2 && y1 == y2
  {
  }

  /** `new_map`: a window-sized grid of Floor whose outer ring is Wall. */
  method NewMap() returns (tiles: seq<TileType>)
    ensures |tiles| == COLUMNS * ROWS
    ensures forall x, y | InWindow(x, y) :: tiles[XyIdx(x, y)] == if OnBorder(x, y) then Wall else Floor
  {
    var grid := new TileType[COLUMNS * ROWS](_ => Floor);
    for x := 0 to WINDOW_WIDTH + 1
      invariant forall cx, cy | InWindow(cx, cy) ::
        grid[XyIdx(cx, cy)] == if (cy == 0 || cy == WINDOW_HEIGHT) && cx < x then Wall else Floor
    {
      grid[XyIdx(x, 0)] := Wall;
      grid[XyIdx(x, WINDOW_HEIGHT)] := Wall;
    }
    for y := 0 to WINDOW_HEIGHT + 1
      invariant forall cx, cy | InWindow(cx, cy) ::
        grid[XyIdx(cx, cy)] == if cy == 0 || cy == WINDOW_HEIGHT || ((cx == 0 || cx == WINDOW_WIDTH) && cy < y) then Wall else Floor
    {
      grid[XyIdx(0, y)] := Wall;
      grid[XyIdx(WINDOW_WIDTH, y)] := Wall;
    }
    tiles := grid[..];
  }

  /** The glyph `draw_map` prints for a tile; colours are not modelled. */
  function Glyph(t: TileType): char {
    match t
    case Floor => '.'
    case Wall => '#'
  }

  /** One call of the console's `set`: a glyph at a screen cell. */
  datatype Cell = Cell(x: int, y: int, glyph: char)

  /** `draw_map`: walks the tiles in order with x and y counters, x wrapping
      to 0 and y advancing once x passes WINDOW_WIDTH; returns the cells it sets. */
  method DrawMap(tiles: seq<TileType>) returns (cells: seq<Cell>)
    ensures |cells| == |tiles|
    ensures forall i | 0 <= i < |tiles| ::
      cells[i] == Cell(i % COLUMNS, i / COLUMNS, Glyph(tiles[i]))
    ensures forall i | 0 <= i < |tiles| :: XyIdx(cells[i].x, cells[i].y) == i
  {
    var x, y := 0, 0;
    cells := [];
    for i := 0 to |tiles|
      invariant 0 <= x <= WINDOW_WIDTH && 0 <= y && i == y * COLUMNS + x
      invariant |cells| == i
      invariant forall k | 0 <= k < i :: cells[k] == Cell(k % COLUMNS, k / COLUMNS, Glyph(tiles[k]))
    {
      RowMajorDecode(COLUMNS, x, y);
      cells := cells + [Cell(x, y, Glyph(tiles[i]))];
      x := x + 1;
      if x > WINDOW_WIDTH {
        x := 0;
        y := y + 1;
      }
    }
  }

  /** The level map of the running game (its struct is not shown in the
      source): its size, its rooms, and three per-tile flag vectors that the
      systems overwrite in place. */
  class Map {
    const width: int
    const height: int
    const rooms: seq<Rectangle>
    const occupied: array<bool>
    const revealed: array<bool>
    const visible: array<bool>

    /** Every flag vector covers the grid, and the three are distinct. */
    ghost predicate Valid() {
      && 0 < width && 0 < height
      && occupied.Length == width * height
      && revealed.Length == width * height
      && visible.Length == width * height
      && occupied != revealed && occupied != visible && revealed != visible
    }

    /** A fresh level with no tile occupied, revealed or visible. */
    constructor (width: int, height: int, rooms: seq<Rectangle>)
      requires 0 < width && 0 < height
      ensures Valid()
      ensures this.width == width && this.height == height && this.rooms == rooms
      ensures fresh(occupied) && fresh(revealed) && fresh(visible)
      ensures forall i | 0 <= i < width * height :: !occupied[i] && !revealed[i] && !visible[i]
    {
      this.width := width;
      this.height := height;
      this.rooms := rooms;
      occupied := new bool[width * height](_ => false);
      revealed := new bool[width * height](_ => false);
      visible := new bool[width * height](_ => false);
    }

    /** (x, y) lies on the map. */
    predicate InBounds(x: int, y: int) {
      0 <= x < width && 0 <= y < height
    }

    /** `xy_idx` of the level map: y * width + x. Negative coordinates, which
        the source would cast to usize, are ruled out. */
    function XyIdx(x: int, y: int): (i: int)
      requires 0 <= x && 0 <= y
      ensures 0 <= x < width ==> i % width == x && i / width == y
      ensures InBounds(x, y) ==> 0 <= i < width * height
    {
      RowMajor(width, height, x, y);
      y * width + x
    }
  }
}
