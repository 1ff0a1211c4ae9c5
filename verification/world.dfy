/**
 * The game state both ports keep in globals, as one immutable record, and the operations on it
 * that the player's and the ghosts' updates share: eating a ghost, moving the player's marker,
 * losing a life and starting a level.
 */
module World {
  import opened Vectors
  import opened Rules
  import opened Maze
  import opened Ghosts

  /** The player's entity state. */
  datatype Player = Player(pos: Vec, dir: Vec)

  /** pacManStartPos / pacman_start_pos. */
  const PlayerStart := Vec(13, 26)

  /**
   * The game data. `numLives` counts the hearts still lit; `hearts` holds the heart cells in the
   * order they were parsed. `running` is the engine's isRunning flag, which the game clears when
   * the last life is lost.
   */
  datatype World = World(
    tiles: Grid,
    totalPointTiles: int,
    remainingPointTiles: int,
    hearts: seq<Vec>,
    numLives: int,
    score: int,
    level: nat,
    ghosts: seq<Ghost>,
    pacMan: Player,
    running: bool)

  ghost predicate GhostFits(tiles: Grid, g: Ghost, i: nat)
    requires Shaped(tiles) && i < 4
  {
    g.kind == Kinds[i] && InBounds(g.pos) && Open(tiles, g.pos) && 0 <= g.cyclesCompleted <= 3
  }

  /**
   * What holds between any two steps of the game: the grid is Width x Height, walls are never
   * painted over, the spawn cells are open, there are the four ghosts in kind order, nobody
   * stands on a wall, no ghost has completed more than three cycles, the lit hearts are among the
   * recorded ones, and the score is not negative.
   */
  ghost predicate Valid(w: World) {
    && Shaped(w.tiles) && WallsFixed(w.tiles) && SpawnsOpen(w.tiles)
    && |w.ghosts| == 4
    && (forall i :: 0 <= i < 4 ==> GhostFits(w.tiles, w.ghosts[i], i))
    && InBounds(w.pacMan.pos) && Open(w.tiles, w.pacMan.pos)
    && 0 <= w.numLives <= |w.hearts| <= MaxLives
    && (forall j :: 0 <= j < |w.hearts| ==> InBounds(w.hearts[j]))
    && w.score >= 0
  }

  /** The marker a ghost paints over the cell it stands on. */
  function GhostMark(k: GhostKind): TileType {
    match k
    case Blinky => GhostBlinky
    case Pinky => GhostPinky
    case Inky => GhostInky
    case Clyde => GhostClyde
  }

  predicate IsGhostMark(t: TileType) {
    t == GhostBlinky || t == GhostPinky || t == GhostInky || t == GhostClyde
  }

  function MarkKind(t: TileType): (k: GhostKind)
    requires IsGhostMark(t)
    ensures GhostMark(k) == t
  {
    match t
    case GhostBlinky => Blinky
    case GhostPinky => Pinky
    case GhostInky => Inky
    case GhostClyde => Clyde
  }

  /** Replacing ghost i by one that fits keeps the world valid. */
  lemma ReplaceGhost(w: World, i: nat, g: Ghost)
    requires Valid(w) && i < 4 && GhostFits(w.tiles, g, i)
    ensures Valid(w.(ghosts := w.ghosts[i := g]))
  {
  }

  /** Changing only tiles' types and interaction flags over open cells keeps the world valid. */
  lemma RetileKeepsValid(w: World, t: Grid)
    requires Valid(w) && SameDefaults(w.tiles, t) && WallsFixed(t)
    ensures Valid(w.(tiles := t))
  {
    forall i | 0 <= i < 4
      ensures GhostFits(t, w.ghosts[i], i)
    {
      assert GhostFits(w.tiles, w.ghosts[i], i);
    }
  }

  /**
   * eatGhost / eat_ghost: the ghost goes dormant, stops, is put back on its spawn cell with
   * lastEaten at this tick, and the player scores 10. Nothing else changes.
   */
  function EatGhost(w: World, i: nat, tick: int): (r: World)
    requires Valid(w) && i < 4
    ensures Valid(r)
    ensures r.score == w.score + 10
    ensures r.ghosts[i].state == Dormant && r.ghosts[i].dir == DirVec(Still)
    ensures r.ghosts[i].pos == SpawnPos(w.ghosts[i].kind) && r.ghosts[i].lastEaten == tick
    ensures r == w.(score := r.score, ghosts := w.ghosts[i := r.ghosts[i]])
    ensures r.ghosts[i] == w.ghosts[i].(state := Dormant, dir := r.ghosts[i].dir, pos := r.ghosts[i].pos, lastEaten := tick)
  {
    var g := w.ghosts[i];
    var eaten := g.(state := Dormant, dir := DirVec(Still), pos := SpawnPos(g.kind), lastEaten := tick);
    assert GhostFits(w.tiles, eaten, i);
    ReplaceGhost(w, i, eaten);
    w.(ghosts := w.ghosts[i := eaten], score := w.score + 10)
  }

  /**
   * updatePacManPos / update_pacman_pos: the vacated cell gets its default type back, the player
   * moves to p (keeping its direction) and p is marked PacMan.
   */
  function UpdatePacManPos(w: World, p: Vec): (r: World)
    requires Valid(w) && InBounds(p) && Open(w.tiles, p)
    ensures Valid(r) && SameDefaults(w.tiles, r.tiles)
    ensures r.pacMan == Player(p, w.pacMan.dir)
    ensures At(r.tiles, p) == At(w.tiles, p).(tileType := PacMan)
    ensures p != w.pacMan.pos ==> At(r.tiles, w.pacMan.pos).tileType == At(w.tiles, w.pacMan.pos).defaultType
    ensures forall q :: InBounds(q) && q != p ==> At(r.tiles, q).canInteract == At(w.tiles, q).canInteract
    ensures forall q :: InBounds(q) && q != p && q != w.pacMan.pos ==> At(r.tiles, q) == At(w.tiles, q)
    ensures r == w.(tiles := r.tiles, pacMan := r.pacMan)
  {
    var vacated := Restore(w.tiles, w.pacMan.pos);
    var t := SetType(vacated, p, PacMan);
    MarkOpenCell(vacated, p, PacMan);
    RetileKeepsValid(w, t);
    w.(tiles := t, pacMan := Player(p, w.pacMan.dir))
  }

  /**
   * pacManLoseLife / pacman_lose_life: with no life left the run only stops. Otherwise one life
   * goes, the heart at the new life count stops being interactable, and then either the run stops
   * (no life left now) or the player alone goes back to the start cell; the ghosts are untouched.
   */
  function PacManLoseLife(w: World): (r: World)
    requires Valid(w)
    ensures Valid(r) && SameDefaults(w.tiles, r.tiles)
    ensures r.ghosts == w.ghosts && r.score == w.score && r.level == w.level
    ensures r.remainingPointTiles == w.remainingPointTiles && r.hearts == w.hearts
    ensures w.numLives == 0 ==> r == w.(running := false)
    ensures w.numLives > 0 ==> r.numLives == w.numLives - 1 && !At(r.tiles, w.hearts[r.numLives]).canInteract
    ensures r.numLives == 0 ==> !r.running && r.pacMan == w.pacMan
    ensures r.numLives > 0 ==> r.running == w.running && r.pacMan.pos == PlayerStart && r.pacMan.dir == w.pacMan.dir
  {
    if w.numLives == 0 then w.(running := false)
    else
      var n := w.numLives - 1;
      var heart := w.hearts[n];
      var t := SetInteract(w.tiles, heart, false);
      RetileKeepsValid(w, t);
      var w1 := w.(numLives := n, tiles := t);
      if n == 0 then w1.(running := false)
      else
        var r := UpdatePacManPos(w1, PlayerStart);
        assert r.tiles == SetType(Restore(t, w.pacMan.pos), PlayerStart, PacMan);
        assert heart != PlayerStart ==> At(r.tiles, heart).canInteract == At(t, heart).canInteract;
        r
  }

  /**
   * initLevel / init_level for a level above 0: tiles are reset to their defaults, the point
   * counter is refilled, the ghosts are re-initialised for the new level's multiplier and the
   * player is back on the start cell, facing nowhere. Score, lives and hearts carry over.
   */
  function InitLevel(port: Port, w: World, level: nat): (r: World)
    requires Valid(w)
    ensures Valid(r) && SameDefaults(w.tiles, r.tiles)
    ensures r.tiles == ResetTiles(w.tiles)
    ensures r.level == level && r.remainingPointTiles == w.totalPointTiles
    ensures r.ghosts == InitGhosts(port, w.score, level)
    ensures r.pacMan == Player(PlayerStart, DirVec(Still))
    ensures r == w.(tiles := r.tiles, level := level, remainingPointTiles := r.remainingPointTiles,
                    ghosts := r.ghosts, pacMan := r.pacMan)
  {
    var t := ResetTiles(w.tiles);
    var r := w.(tiles := t, level := level, remainingPointTiles := w.totalPointTiles,
                ghosts := InitGhosts(port, w.score, level), pacMan := Player(PlayerStart, DirVec(Still)));
    assert SpawnsOpen(t);
    forall i | 0 <= i < 4
      ensures GhostFits(t, r.ghosts[i], i)
    {
    }
    r
  }

  /**
   * initLevel(0) / init_level(0) from the program's initial globals: the layout is parsed with
   * zeroed counters, the player has one life per recorded heart, the score and level are 0 and
   * the remaining-point counter equals the total.
   */
  function NewWorld(port: Port, layout: seq<string>): (r: World)
    requires SpawnsOpen(Parse(layout).tiles)
    ensures Valid(r)
    ensures r.tiles == Parse(layout).tiles && r.hearts == Parse(layout).hearts
    ensures r.numLives == |r.hearts| && r.score == 0 && r.level == 0 && r.running
    ensures r.totalPointTiles == r.remainingPointTiles == Count(layout, Width * Height, '.')
    ensures r.ghosts == InitGhosts(port, 0, 0) && r.pacMan == Player(PlayerStart, DirVec(Still))
  {
    var m := Parse(layout);
    var r := World(m.tiles, m.totalPoints, m.totalPoints, m.hearts, |m.hearts|, 0, 0,
                   InitGhosts(port, 0, 0), Player(PlayerStart, DirVec(Still)), true);
    forall j | 0 <= j < |m.hearts|
      ensures InBounds(m.hearts[j])
    {
      assert HeartAt(layout, m.hearts[j], j);
    }
    forall i | 0 <= i < 4
      ensures GhostFits(r.tiles, r.ghosts[i], i)
    {
    }
    r
  }

  /** The game as shipped: the reference layout, three lives, every entity on an open cell. */
  function NewGame(port: Port): (r: World)
    ensures Valid(r) && r.numLives == MaxLives && r.score == 0 && r.running
    ensures r.tiles == Parse(ReferenceLayout).tiles
  {
    ReferenceSpawnsOpen();
    ReferenceHasThreeHearts();
    NewWorld(port, ReferenceLayout)
  }
}
