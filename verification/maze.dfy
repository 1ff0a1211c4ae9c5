/**
 * The maze: a Width x Height grid of tiles parsed once from a character layout, restored to its
 * parsed state on every level advance.
 */
module Maze {
  import opened Vectors
  import opened Rules

  /** The tile types; GhostBlinky .. PacMan are the occupant markers painted over a tile. */
  datatype TileType =
    | Empty | GhostBlinky | GhostPinky | GhostInky | GhostClyde | PacMan
    | Wall | Point | Energizer | Heart

  /** `canInteract` gates whether a Point, Energizer or Heart still has its effect. */
  datatype Tile = Tile(tileType: TileType, defaultType: TileType, canInteract: bool)

  type Grid = seq<seq<Tile>>

  predicate InBounds(p: Vec) {
    0 <= p.x < Width && 0 <= p.y < Height
  }

  /** The clamp both ports apply to every candidate position. */
  function WrapIntoField(p: Vec): (r: Vec)
    ensures InBounds(r)
    ensures InBounds(p) ==> r == p
  {
    Clamp(p, 0, Width - 1, 0, Height - 1)
  }

  predicate Shaped(g: Grid) {
    |g| == Height && forall y :: 0 <= y < |g| ==> |g[y]| == Width
  }

  function At(g: Grid, p: Vec): Tile
    requires Shaped(g) && InBounds(p)
  {
    g[p.y][p.x]
  }

  /** A cell whose default is not a wall; entities only ever stand on such cells. */
  predicate Open(g: Grid, p: Vec)
    requires Shaped(g) && InBounds(p)
  {
    At(g, p).defaultType != Wall
  }

  /** A wall tile is never painted over and nothing is ever painted as a wall. */
  ghost predicate WallsFixed(g: Grid)
    requires Shaped(g)
  {
    forall p :: InBounds(p) ==> (At(g, p).tileType == Wall <==> At(g, p).defaultType == Wall)
  }

  /** The default type of every cell is the same in both grids. */
  ghost predicate SameDefaults(g: Grid, h: Grid) {
    Shaped(g) && Shaped(h) &&
    forall p :: InBounds(p) ==> At(g, p).defaultType == At(h, p).defaultType
  }

  lemma SameDefaultsTransitive(a: Grid, b: Grid, c: Grid)
    requires SameDefaults(a, b) && SameDefaults(b, c)
    ensures SameDefaults(a, c)
  {
  }

  /** Replace the tile at p, leaving every other cell alone. */
  function Put(g: Grid, p: Vec, t: Tile): (r: Grid)
    requires Shaped(g) && InBounds(p)
    ensures Shaped(r)
    ensures At(r, p) == t
    ensures forall q :: InBounds(q) && q != p ==> At(r, q) == At(g, q)
  {
    g[p.y := g[p.y][p.x := t]]
  }

  /** Paint an occupant marker (or any type) over the cell at p. */
  function SetType(g: Grid, p: Vec, t: TileType): (r: Grid)
    requires Shaped(g) && InBounds(p)
    ensures Shaped(r) && SameDefaults(g, r)
    ensures At(r, p) == At(g, p).(tileType := t)
    ensures forall q :: InBounds(q) && q != p ==> At(r, q) == At(g, q)
  {
    Put(g, p, At(g, p).(tileType := t))
  }

  /** Give the cell at p back its default type (the vacated cell of a move). */
  function Restore(g: Grid, p: Vec): (r: Grid)
    requires Shaped(g) && InBounds(p)
    ensures Shaped(r) && SameDefaults(g, r)
    ensures At(r, p).tileType == At(g, p).defaultType
    ensures At(r, p).canInteract == At(g, p).canInteract
    ensures WallsFixed(g) ==> WallsFixed(r)
    ensures forall q :: InBounds(q) && q != p ==> At(r, q) == At(g, q)
  {
    SetType(g, p, At(g, p).defaultType)
  }

  /** Painting a non-wall marker over an open cell keeps walls fixed. */
  lemma MarkOpenCell(g: Grid, p: Vec, t: TileType)
    requires Shaped(g) && InBounds(p) && WallsFixed(g) && Open(g, p) && t != Wall
    ensures WallsFixed(SetType(g, p, t))
  {
  }

  function SetInteract(g: Grid, p: Vec, b: bool): (r: Grid)
    requires Shaped(g) && InBounds(p)
    ensures Shaped(r) && SameDefaults(g, r)
    ensures At(r, p) == At(g, p).(canInteract := b)
    ensures WallsFixed(g) ==> WallsFixed(r)
    ensures forall q :: InBounds(q) && q != p ==> At(r, q) == At(g, q)
  {
    Put(g, p, At(g, p).(canInteract := b))
  }

  /** resetTiles / reset_tiles: every tile gets its default type back and becomes interactable. */
  function ResetTiles(g: Grid): (r: Grid)
    requires Shaped(g)
    ensures Shaped(r) && SameDefaults(g, r) && WallsFixed(r)
    ensures forall p :: InBounds(p) ==>
              At(r, p).tileType == At(g, p).defaultType && At(r, p).canInteract
  {
    seq(Height, y requires 0 <= y < Height =>
      seq(Width, x requires 0 <= x < Width =>
        Tile(g[y][x].defaultType, g[y][x].defaultType, true)))
  }

  /** Resetting forgets everything but the defaults. */
  lemma ResetSameDefaults(g: Grid, h: Grid)
    requires SameDefaults(g, h)
    ensures ResetTiles(g) == ResetTiles(h)
  {
    GridExt(ResetTiles(g), ResetTiles(h));
  }

  /** Two shaped grids that agree on every cell are equal. */
  lemma GridExt(g: Grid, h: Grid)
    requires Shaped(g) && Shaped(h)
    requires forall p :: InBounds(p) ==> At(g, p) == At(h, p)
    ensures g == h
  {
    forall y | 0 <= y < Height
      ensures g[y] == h[y]
    {
      forall x | 0 <= x < Width
        ensures g[y][x] == h[y][x]
      {
        assert At(g, Vec(x, y)) == At(h, Vec(x, y));
      }
    }
  }

  /** Resetting twice is the same as resetting once. */
  lemma ResetIdempotent(g: Grid)
    requires Shaped(g)
    ensures ResetTiles(ResetTiles(g)) == ResetTiles(g)
  {
    GridExt(ResetTiles(ResetTiles(g)), ResetTiles(g));
  }

  // ---------------------------------------------------------------------------------------
  // Parsing

  /**
   * The character layout both ports ship. The source holds it as one string of 36 x 28
   * characters read at index y * 28 + x; here it is kept as its 36 rows of 28 characters.
   */
  const ReferenceLayout: seq<string> := [
    "                            ",
    "                            ",
    "                            ",
    "############################",
    "#............##............#",
    "#.####.#####.##.#####.####.#",
    "#@#  #.#   #.##.#   #.#  #@#",
    "#.####.#####.##.#####.####.#",
    "#..........................#",
    "#.####.##.########.##.####.#",
    "#.####.##.########.##.####.#",
    "#......##....##....##......#",
    "######.##### ## #####.######",
    "     #.##### ## #####.#     ",
    "     #.##          ##.#     ",
    "     #.## ###  ### ##.#     ",
    "######.## #      # ##.######",
    "      .   #      #   .      ",
    "######.## #      # ##.######",
    "     #.## ######## ##.#     ",
    "     #.##          ##.#     ",
    "     #.## ######## ##.#     ",
    "######.## ######## ##.######",
    "#............##............#",
    "#.####.#####.##.#####.####.#",
    "#.####.#####.##.#####.####.#",
    "#@..##.......  .......##..@#",
    "###.##.##.########.##.##.###",
    "###.##.##.########.##.##.###",
    "#......##....##....##......#",
    "#.##########.##.##########.#",
    "#.##########.##.##########.#",
    "#..........................#",
    "############################",
    " ooo                        ",
    "                            "
  ]

  /**
   * The character of row-major cell k, that is character k of the rows laid end to end; a cell
   * the layout does not cover parses as Empty, as the browser port's `undefined` does.
   */
  function CharAt(layout: seq<string>, k: nat): char {
    var y := k / Width;
    var x := k % Width;
    if y < |layout| && x < |layout[y]| then layout[y][x] else ' '
  }

  /** Row-major cell number k sits at column k % Width of row k / Width. */
  function CellPos(k: nat): (p: Vec)
    ensures InBounds(p) <==> k < Width * Height
  {
    Vec(k % Width, k / Width)
  }

  function CellIndex(p: Vec): int {
    p.y * Width + p.x
  }

  lemma CellIndexPos(k: nat)
    ensures CellIndex(CellPos(k)) == k
  {
  }

  /** How many of the first n cells hold character c. */
  function Count(layout: seq<string>, n: nat, c: char): (r: nat)
    ensures r <= n
  {
    if n == 0 then 0 else Count(layout, n - 1, c) + (if CharAt(layout, n - 1) == c then 1 else 0)
  }

  /** The type a layout character stands for. */
  function CharType(c: char): TileType {
    match c
    case '#' => Wall
    case '.' => Point
    case '@' => Energizer
    case 'o' => Heart
    case _ => Empty
  }

  /**
   * The type cell k gets, stated without the parsing loop: its character's type, except that an
   * 'o' preceded by MaxLives or more 'o' characters is left Empty.
   */
  function ExpectedType(layout: seq<string>, k: nat): TileType {
    var c := CharAt(layout, k);
    if c == 'o' && Count(layout, k, 'o') >= MaxLives then Empty else CharType(c)
  }

  /** hearts[j] is the cell of the (j+1)-th 'o' of the layout in row-major order. */
  predicate HeartAt(layout: seq<string>, p: Vec, j: nat) {
    InBounds(p) && CharAt(layout, CellIndex(p)) == 'o' && Count(layout, CellIndex(p), 'o') == j
  }

  /** The state of the parsing loop: tiles so far, the point counter and the recorded hearts. */
  datatype Parsed = Parsed(cells: seq<Tile>, totalPoints: int, hearts: seq<Vec>)

  /**
   * setTile / set_tile: the cell starts as an interactable Empty tile; '#', '.', '@' give it the
   * matching type, '.' bumps the point counter, and 'o' becomes a Heart and is recorded only while
   * fewer than MaxLives hearts have been recorded (the life counter is the number recorded).
   */
  function SetTile(p: Parsed, c: char, pos: Vec): Parsed {
    var heartRejected := c == 'o' && |p.hearts| >= MaxLives;
    var t := if heartRejected then Empty else CharType(c);
    Parsed(p.cells + [Tile(t, t, true)],
           p.totalPoints + (if c == '.' then 1 else 0),
           if c == 'o' && !heartRejected then p.hearts + [pos] else p.hearts)
  }

  /** The first n iterations of the row-major parsing loop, from zeroed counters. */
  function ParseCells(layout: seq<string>, n: nat): Parsed {
    if n == 0 then Parsed([], 0, [])
    else SetTile(ParseCells(layout, n - 1), CharAt(layout, n - 1), CellPos(n - 1))
  }

  /** The tiles of the first n cells, each typed as ExpectedType says. */
  function ExpectedCells(layout: seq<string>, n: nat): seq<Tile> {
    if n == 0 then []
    else ExpectedCells(layout, n - 1) + [Tile(ExpectedType(layout, n - 1), ExpectedType(layout, n - 1), true)]
  }

  lemma {:induction false} ExpectedCellsIndex(layout: seq<string>, n: nat)
    ensures |ExpectedCells(layout, n)| == n
    ensures forall k :: 0 <= k < n ==>
              ExpectedCells(layout, n)[k] == Tile(ExpectedType(layout, k), ExpectedType(layout, k), true)
  {
    if n > 0 {
      ExpectedCellsIndex(layout, n - 1);
    }
  }

  /** One loop iteration appends the tile of cell n - 1, typed as ExpectedType says. */
  lemma ParseCellsStep(layout: seq<string>, n: nat)
    requires n > 0
    ensures ParseCells(layout, n).cells
         == ParseCells(layout, n - 1).cells + [Tile(ExpectedType(layout, n - 1), ExpectedType(layout, n - 1), true)]
  {
    ParseCellsHearts(layout, n - 1);
    var prev := ParseCells(layout, n - 1);
    assert |prev.hearts| >= MaxLives <==> Count(layout, n - 1, 'o') >= MaxLives;
  }

  lemma {:induction false} ParseCellsTiles(layout: seq<string>, n: nat)
    ensures ParseCells(layout, n).cells == ExpectedCells(layout, n)
  {
    if n > 0 {
      ParseCellsTiles(layout, n - 1);
      ParseCellsStep(layout, n);
    }
  }

  lemma {:induction false} ParseCellsPoints(layout: seq<string>, n: nat)
    ensures ParseCells(layout, n).totalPoints == Count(layout, n, '.')
  {
    if n > 0 {
      ParseCellsPoints(layout, n - 1);
    }
  }

  lemma {:induction false} ParseCellsHearts(layout: seq<string>, n: nat)
    ensures var r := ParseCells(layout, n);
      && |r.hearts| == Min(MaxLives, Count(layout, n, 'o'))
      && (forall j :: 0 <= j < |r.hearts| ==> 0 <= CellIndex(r.hearts[j]) < n && r.hearts[j] == CellPos(CellIndex(r.hearts[j])))
      && (forall j :: 0 <= j < |r.hearts| ==> CharAt(layout, CellIndex(r.hearts[j])) == 'o' && Count(layout, CellIndex(r.hearts[j]), 'o') == j)
  {
    if n > 0 {
      ParseCellsHearts(layout, n - 1);
      var prev := ParseCells(layout, n - 1);
      var c := CharAt(layout, n - 1);
      if c == 'o' && |prev.hearts| < MaxLives {
        CellIndexPos(n - 1);
      }
    }
  }

  lemma ParseCellsSpec(layout: seq<string>, n: nat)
    requires n <= Width * Height
    ensures var r := ParseCells(layout, n);
      && |r.cells| == n
      && (forall k :: 0 <= k < n ==>
            r.cells[k] == Tile(ExpectedType(layout, k), ExpectedType(layout, k), true))
      && r.totalPoints == Count(layout, n, '.')
      && |r.hearts| == Min(MaxLives, Count(layout, n, 'o'))
      && (forall j :: 0 <= j < |r.hearts| ==> HeartAt(layout, r.hearts[j], j))
  {
    ParseCellsTiles(layout, n);
    ExpectedCellsIndex(layout, n);
    ParseCellsPoints(layout, n);
    ParseCellsHearts(layout, n);
    var r := ParseCells(layout, n);
    forall j | 0 <= j < |r.hearts|
      ensures HeartAt(layout, r.hearts[j], j)
    {
      assert CellIndex(r.hearts[j]) < Width * Height;
      assert InBounds(CellPos(CellIndex(r.hearts[j])));
    }
  }

  function Min(a: int, b: int): int {
    if a < b then a else b
  }

  /** Lay the row-major cells out as Height rows of Width tiles. */
  function ToGrid(cells: seq<Tile>): (g: Grid)
    requires |cells| == Width * Height
    ensures Shaped(g)
    ensures forall p :: InBounds(p) ==> At(g, p) == cells[CellIndex(p)]
  {
    seq(Height, y requires 0 <= y < Height => cells[y * Width .. y * Width + Width])
  }

  /** The parsed maze: the grid, totalPointTiles and the recorded heart positions. */
  datatype Layout = Layout(tiles: Grid, totalPoints: int, hearts: seq<Vec>)

  /**
   * initTiles / init_tiles: parse every cell in row-major order. Every tile is interactable and
   * shows its default type; the default type is the character's type except for surplus hearts;
   * the point counter is the number of '.' cells; the hearts are the first MaxLives 'o' cells in
   * row-major order.
   */
  function Parse(layout: seq<string>): (m: Layout)
    ensures Shaped(m.tiles) && WallsFixed(m.tiles)
    ensures forall p :: InBounds(p) ==>
              At(m.tiles, p) == Tile(ExpectedType(layout, CellIndex(p)), ExpectedType(layout, CellIndex(p)), true)
    ensures m.totalPoints == Count(layout, Width * Height, '.')
    ensures |m.hearts| == Min(MaxLives, Count(layout, Width * Height, 'o'))
    ensures forall j :: 0 <= j < |m.hearts| ==> HeartAt(layout, m.hearts[j], j)
  {
    ParseCellsSpec(layout, Width * Height);
    var r := ParseCells(layout, Width * Height);
    Layout(ToGrid(r.cells), r.totalPoints, r.hearts)
  }

  /** Every recorded heart cell holds a Heart tile. */
  lemma HeartsAreHeartTiles(layout: seq<string>, j: nat)
    requires j < |Parse(layout).hearts|
    ensures InBounds(Parse(layout).hearts[j])
    ensures At(Parse(layout).tiles, Parse(layout).hearts[j]).tileType == Heart
  {
    var m := Parse(layout);
    assert HeartAt(layout, m.hearts[j], j);
    assert j < MaxLives;
  }

  /** The hearts are recorded in strictly increasing row-major order. */
  lemma {:induction false} HeartsInRowMajorOrder(layout: seq<string>, i: nat, j: nat)
    requires i < j < |Parse(layout).hearts|
    ensures CellIndex(Parse(layout).hearts[i]) < CellIndex(Parse(layout).hearts[j])
  {
    var m := Parse(layout);
    assert HeartAt(layout, m.hearts[i], i) && HeartAt(layout, m.hearts[j], j);
    var a := CellIndex(m.hearts[i]);
    var b := CellIndex(m.hearts[j]);
    if b <= a {
      CountMonotone(layout, b, a, 'o');
    }
  }

  lemma {:induction false} CountMonotone(layout: seq<string>, m: nat, n: nat, c: char)
    requires m <= n
    ensures Count(layout, m, c) <= Count(layout, n, c)
  {
    if m < n {
      CountMonotone(layout, m, n - 1, c);
    }
  }

  /**
   * A level reset restores exactly the freshly parsed grid, whatever happened to the tiles in
   * between, provided only the default types were left alone.
   */
  lemma ResetRestoresParse(layout: seq<string>, g: Grid)
    requires SameDefaults(Parse(layout).tiles, g)
    ensures ResetTiles(g) == Parse(layout).tiles
  {
    GridExt(ResetTiles(g), Parse(layout).tiles);
  }

  // ---------------------------------------------------------------------------------------
  // Facts about the reference layout

  /** The player start, Blinky's start and the four ghost spawn cells are not walls. */
  predicate SpawnsOpen(g: Grid)
    requires Shaped(g)
  {
    && Open(g, Vec(13, 26)) && Open(g, Vec(13, 14))
    && Open(g, Vec(13, 16)) && Open(g, Vec(13, 17)) && Open(g, Vec(11, 17)) && Open(g, Vec(15, 17))
  }

  /** The row-major number of an in-field cell names the cell's own column and row. */
  lemma IndexCharAt(layout: seq<string>, p: Vec)
    requires InBounds(p)
    ensures CharAt(layout, CellIndex(p)) == if p.y < |layout| && p.x < |layout[p.y]| then layout[p.y][p.x] else ' '
  {
    var k := CellIndex(p);
    assert k / Width == p.y && k % Width == p.x;
  }

  /** A cell whose character is not '#' parses to a tile whose default is not a wall. */
  lemma NonWallCharIsOpen(layout: seq<string>, p: Vec)
    requires InBounds(p) && p.y < |layout| && p.x < |layout[p.y]| && layout[p.y][p.x] != '#'
    ensures Open(Parse(layout).tiles, p)
  {
    IndexCharAt(layout, p);
  }

  lemma ReferenceSpawnsOpen()
    ensures SpawnsOpen(Parse(ReferenceLayout).tiles)
  {
    assert ReferenceLayout[26][13] == ' ' && ReferenceLayout[14][13] == ' ';
    assert ReferenceLayout[16][13] == ' ' && ReferenceLayout[17][13] == ' ';
    assert ReferenceLayout[17][11] == ' ' && ReferenceLayout[17][15] == ' ';
    NonWallCharIsOpen(ReferenceLayout, Vec(13, 26));
    NonWallCharIsOpen(ReferenceLayout, Vec(13, 14));
    NonWallCharIsOpen(ReferenceLayout, Vec(13, 16));
    NonWallCharIsOpen(ReferenceLayout, Vec(13, 17));
    NonWallCharIsOpen(ReferenceLayout, Vec(11, 17));
    NonWallCharIsOpen(ReferenceLayout, Vec(15, 17));
  }

  /** The reference layout has at least three 'o' cells, so the player starts with three lives. */
  lemma ReferenceHasThreeHearts()
    ensures |Parse(ReferenceLayout).hearts| == MaxLives
  {
    assert ReferenceLayout[34][1] == 'o' && ReferenceLayout[34][2] == 'o' && ReferenceLayout[34][3] == 'o';
    assert CharAt(ReferenceLayout, 953) == 'o';
    assert CharAt(ReferenceLayout, 954) == 'o';
    assert CharAt(ReferenceLayout, 955) == 'o';
    CountMonotone(ReferenceLayout, 956, Width * Height, 'o');
  }
}
