/**
 * The player's step: classify the destination cell, then score, eat, lose a life, advance the
 * level or simply move.
 */
module PlayerStep {
  import opened Vectors
  import opened Rules
  import opened Maze
  import opened Ghosts
  import opened World

  /**
   * The collision result: Blocked is the source's 2, Scored its 1, Passed its 0 (and the
   * browser port's `undefined` for tiles with no entry in its table), Fatal its -1.
   */
  datatype PlayerHit = Blocked | Scored | Passed | Fatal

  /**
   * checkPacManCollisions / check_pacman_collisions. A wall blocks. A still interactable Point or
   * Energizer is consumed and scores; an already consumed one lets the player pass. An Energizer
   * frightens the ghosts: in the browser port on every entry, in the console port only when it
   * is consumed. A ghost's marker either feeds the player (frightened ghost, which is eaten) or
   * kills. Anything else lets the player pass.
   */
  function CheckPacManCollisions(rules: Rules, w: World, p: Vec, tick: int): (r: (World, PlayerHit))
    requires Valid(w) && InBounds(p)
    ensures Valid(r.0) && SameDefaults(w.tiles, r.0.tiles) && r.0.score >= w.score
    ensures r.0.pacMan == w.pacMan && r.0.level == w.level && r.0.numLives == w.numLives
    ensures r.0.remainingPointTiles == w.remainingPointTiles && r.0.running == w.running
    ensures r.1 == Blocked <==> At(w.tiles, p).tileType == Wall
    ensures r.1 == Blocked ==> r.0 == w
    ensures r.1 == Fatal ==> r.0 == w
    ensures r.1 == Scored ==> r.0.score == w.score || r.0.score == w.score + 10
    ensures r.1 != Scored ==> r.0.score == w.score
  {
    var t := At(w.tiles, p);
    if t.tileType == Wall then (w, Blocked)
    else if t.tileType == Point || t.tileType == Energizer then
      var w1 := if t.canInteract then w.(tiles := SetInteract(w.tiles, p, false)) else w;
      var frightens := t.tileType == Energizer && (rules.port == Js || t.canInteract);
      var w2 := if frightens then w1.(ghosts := FrightenGhosts(w1.ghosts, tick)) else w1;
      FrightenKeepsValid(w1, tick);
      (w2, if t.canInteract then Scored else Passed)
    else if IsGhostMark(t.tileType) then
      var i := KindIndex(MarkKind(t.tileType));
      if w.ghosts[i].state == Frightened then (EatGhost(w, i, tick), Scored) else (w, Fatal)
    else (w, Passed)
  }

  lemma FrightenKeepsValid(w: World, tick: int)
    requires Valid(w)
    ensures Valid(w.(ghosts := FrightenGhosts(w.ghosts, tick)))
  {
    var r := w.(ghosts := FrightenGhosts(w.ghosts, tick));
    forall i | 0 <= i < 4
      ensures GhostFits(r.tiles, r.ghosts[i], i)
    {
      assert GhostFits(w.tiles, w.ghosts[i], i);
    }
  }

  /** Entering a Point or Energizer: consumed once for one point, then passable for nothing. */
  lemma ConsumablesScoreOnce(rules: Rules, w: World, p: Vec, tick: int)
    requires Valid(w) && InBounds(p)
    requires At(w.tiles, p).tileType == Point || At(w.tiles, p).tileType == Energizer
    ensures var r := CheckPacManCollisions(rules, w, p, tick);
      && (At(w.tiles, p).canInteract ==> r.1 == Scored && r.0.score == w.score && !At(r.0.tiles, p).canInteract)
      && (!At(w.tiles, p).canInteract ==> r.1 == Passed && r.0.tiles == w.tiles)
  {
  }

  /**
   * The energizer delta: the browser port frightens the ghosts on every entry, the console port
   * only on the entry that consumes the tile.
   */
  lemma EnergizerFrightens(rules: Rules, w: World, p: Vec, tick: int)
    requires Valid(w) && InBounds(p) && At(w.tiles, p).tileType == Energizer
    ensures var r := CheckPacManCollisions(rules, w, p, tick);
      && (rules.port == Js || At(w.tiles, p).canInteract ==> r.0.ghosts == FrightenGhosts(w.ghosts, tick))
      && (rules.port == C && !At(w.tiles, p).canInteract ==> r.0 == w)
  {
  }

  /** A ghost's marker: a frightened ghost of that kind is eaten, any other kills. */
  lemma GhostMarkOutcome(rules: Rules, w: World, p: Vec, tick: int)
    requires Valid(w) && InBounds(p) && IsGhostMark(At(w.tiles, p).tileType)
    ensures var i := KindIndex(MarkKind(At(w.tiles, p).tileType));
      var r := CheckPacManCollisions(rules, w, p, tick);
      && (w.ghosts[i].state == Frightened ==> r.1 == Scored && r.0 == EatGhost(w, i, tick))
      && (w.ghosts[i].state != Frightened ==> r.1 == Fatal)
  {
  }

  /** Hearts, empty cells and the player's own marker let the player pass without effect. */
  lemma PlainCellsPass(rules: Rules, w: World, p: Vec, tick: int)
    requires Valid(w) && InBounds(p)
    requires At(w.tiles, p).tileType in {Empty, Heart, PacMan}
    ensures CheckPacManCollisions(rules, w, p, tick) == (w, Passed)
  {
  }

  /** The cell the player heads for: one step along its direction, wrapped into the field. */
  function Destination(w: World): Vec {
    WrapIntoField(Add(w.pacMan.pos, w.pacMan.dir))
  }

  /**
   * What updatePacMan / update_pacman does with the collision result for the cell p: Blocked
   * leaves the world as the collision check returned it; Fatal runs the life loss instead of
   * moving; Scored adds a point and consumes one remaining point, and when none remain starts
   * the next level instead of moving; otherwise the player moves onto p.
   */
  function Resolve(rules: Rules, w: World, hit: PlayerHit, p: Vec): (r: World)
    requires Valid(w) && InBounds(p) && (hit != Blocked ==> Open(w.tiles, p))
    ensures Valid(r) && SameDefaults(w.tiles, r.tiles)
    ensures r.score >= w.score
    ensures r.numLives == w.numLives || r.numLives == w.numLives - 1
    ensures r.level == w.level || r.level == w.level + 1
    ensures r.running ==> w.running
  {
    match hit
    case Blocked => w
    case Fatal => PacManLoseLife(w)
    case Scored =>
      var w2 := w.(score := w.score + 1, remainingPointTiles := w.remainingPointTiles - 1);
      if w2.remainingPointTiles == 0 then InitLevel(rules.port, w2, w2.level + 1)
      else UpdatePacManPos(w2, p)
    case Passed => UpdatePacManPos(w, p)
  }

  /** updatePacMan / update_pacman: one player step, the collision check and then its outcome. */
  function UpdatePacMan(rules: Rules, w: World, tick: int): (r: World)
    requires Valid(w)
    ensures Valid(r) && SameDefaults(w.tiles, r.tiles)
    ensures r.score >= w.score
    ensures r.numLives == w.numLives || r.numLives == w.numLives - 1
    ensures r.level == w.level || r.level == w.level + 1
    ensures r.running ==> w.running
  {
    var newPos := Destination(w);
    var (w1, hit) := CheckPacManCollisions(rules, w, newPos, tick);
    var r := Resolve(rules, w1, hit, newPos);
    SameDefaultsTransitive(w.tiles, w1.tiles, r.tiles);
    r
  }

  /** A wall ahead changes nothing. */
  lemma WallStopsPlayer(rules: Rules, w: World, tick: int)
    requires Valid(w) && At(w.tiles, Destination(w)).tileType == Wall
    ensures UpdatePacMan(rules, w, tick) == w
  {
  }

  /**
   * Eating a still interactable Point or Energizer that is not the last point: one point, one
   * fewer remaining point, the tile spent, and the player on it.
   */
  lemma EatPoint(rules: Rules, w: World, tick: int)
    requires Valid(w) && w.remainingPointTiles != 1
    requires At(w.tiles, Destination(w)).tileType in {Point, Energizer} && At(w.tiles, Destination(w)).canInteract
    ensures var r := UpdatePacMan(rules, w, tick);
      && r.score == w.score + 1 && r.level == w.level
      && r.remainingPointTiles == w.remainingPointTiles - 1
      && r.pacMan.pos == Destination(w)
      && At(r.tiles, Destination(w)).tileType == PacMan
      && !At(r.tiles, Destination(w)).canInteract
  {
    var p := Destination(w);
    var (w1, hit) := CheckPacManCollisions(rules, w, p, tick);
    assert hit == Scored && w1.tiles == SetInteract(w.tiles, p, false);
    var w2 := w1.(score := w1.score + 1, remainingPointTiles := w1.remainingPointTiles - 1);
    assert UpdatePacMan(rules, w, tick) == UpdatePacManPos(w2, p);
  }

  /** An Empty, Heart or PacMan cell ahead: the player simply moves onto it. */
  lemma PlainCellsMove(rules: Rules, w: World, tick: int)
    requires Valid(w) && At(w.tiles, Destination(w)).tileType in {Empty, Heart, PacMan}
    ensures UpdatePacMan(rules, w, tick) == UpdatePacManPos(w, Destination(w))
  {
    PlainCellsPass(rules, w, Destination(w), tick);
  }

  /** The world once the point at Destination(w) is spent and counted, before anything moves. */
  function PointEaten(w: World): (r: World)
    requires Valid(w) && InBounds(Destination(w))
    ensures Valid(r) && SameDefaults(w.tiles, r.tiles)
    ensures At(r.tiles, Destination(w)) == At(w.tiles, Destination(w)).(canInteract := false)
  {
    w.(tiles := SetInteract(w.tiles, Destination(w), false),
       score := w.score + 1, remainingPointTiles := w.remainingPointTiles - 1)
  }

  /**
   * Taking the last point, as a Point or an Energizer, starts the next level from the scored
   * world; the Energizer's frightening is overwritten by the new level's ghosts.
   */
  lemma LastPointStep(rules: Rules, w: World, tick: int)
    requires Valid(w) && w.remainingPointTiles == 1
    requires At(w.tiles, Destination(w)).tileType in {Point, Energizer} && At(w.tiles, Destination(w)).canInteract
    ensures UpdatePacMan(rules, w, tick) == InitLevel(rules.port, PointEaten(w), w.level + 1)
  {
    UpdatePacManSteps(rules, w, tick);
    LastConsumableResolves(rules, w, tick);
  }

  /** The outcome of consuming the last point is the next level, whatever became of the ghosts. */
  lemma LastConsumableResolves(rules: Rules, w: World, tick: int)
    requires Valid(w) && w.remainingPointTiles == 1
    requires (At(w.tiles, Destination(w)).tileType == Point || At(w.tiles, Destination(w)).tileType == Energizer) && At(w.tiles, Destination(w)).canInteract
    ensures var c := CheckPacManCollisions(rules, w, Destination(w), tick);
      Resolve(rules, c.0, c.1, Destination(w)) == InitLevel(rules.port, PointEaten(w), w.level + 1)
  {
    var p := Destination(w);
    var c := CheckPacManCollisions(rules, w, p, tick);
    ConsumedWorld(rules, w, p, tick);
    ScoredNextLevel(rules, w, c.0);
  }

  /**
   * Scoring the last point from v, the world w after its collision check, starts the same next
   * level as the scored w.
   */
  lemma ScoredNextLevel(rules: Rules, w: World, v: World)
    requires Valid(w) && Valid(v) && Open(v.tiles, Destination(w)) && v.remainingPointTiles == 1
    requires v.tiles == SetInteract(w.tiles, Destination(w), false) && v.level == w.level
    requires v.totalPointTiles == w.totalPointTiles && v.hearts == w.hearts
    requires v.numLives == w.numLives && v.score == w.score && v.running == w.running
    ensures Resolve(rules, v, Scored, Destination(w)) == InitLevel(rules.port, PointEaten(w), w.level + 1)
  {
    ScoredLast(rules, v, Destination(w));
    ScoringKeepsValid(v);
    InitLevelReadsFields(rules.port, v.(score := v.score + 1, remainingPointTiles := v.remainingPointTiles - 1),
                         PointEaten(w), w.level + 1);
  }

  /** Counting a point keeps the world well formed. */
  lemma ScoringKeepsValid(w: World)
    requires Valid(w)
    ensures Valid(w.(score := w.score + 1, remainingPointTiles := w.remainingPointTiles - 1))
  {
  }

  /** updatePacMan is the collision check at the destination followed by its outcome. */
  lemma UpdatePacManSteps(rules: Rules, w: World, tick: int)
    requires Valid(w)
    ensures var c := CheckPacManCollisions(rules, w, Destination(w), tick);
      UpdatePacMan(rules, w, tick) == Resolve(rules, c.0, c.1, Destination(w))
  {
  }

  /** Consuming a Point or Energizer changes only that cell's flag and, perhaps, the ghosts. */
  lemma ConsumedWorld(rules: Rules, w: World, p: Vec, tick: int)
    requires Valid(w) && InBounds(p)
    requires (At(w.tiles, p).tileType == Point || At(w.tiles, p).tileType == Energizer) && At(w.tiles, p).canInteract
    ensures var r := CheckPacManCollisions(rules, w, p, tick);
      && r.1 == Scored && r.0.tiles == SetInteract(w.tiles, p, false)
      && r.0.totalPointTiles == w.totalPointTiles && r.0.hearts == w.hearts
      && r.0.numLives == w.numLives && r.0.score == w.score && r.0.running == w.running
  {
  }

  /** A scoring step that takes the last point starts the next level from the scored world. */
  lemma ScoredLast(rules: Rules, w: World, p: Vec)
    requires Valid(w) && InBounds(p) && Open(w.tiles, p) && w.remainingPointTiles == 1
    ensures Resolve(rules, w, Scored, p)
         == InitLevel(rules.port, w.(score := w.score + 1, remainingPointTiles := w.remainingPointTiles - 1), w.level + 1)
  {
  }

  /**
   * initLevel replaces the ghosts, the player and the counters, so only the tiles, the score and
   * the run's lives, hearts and flag carry over.
   */
  lemma InitLevelReadsFields(port: Port, a: World, b: World, level: nat)
    requires Valid(a) && Valid(b) && a.tiles == b.tiles && a.totalPointTiles == b.totalPointTiles
    requires a.hearts == b.hearts && a.numLives == b.numLives && a.score == b.score && a.running == b.running
    ensures InitLevel(port, a, level) == InitLevel(port, b, level)
  {
  }

  /** Entering a still interactable Point spends it and scores, and frightens nobody. */
  lemma PointCollision(rules: Rules, w: World, tick: int)
    requires Valid(w)
    requires At(w.tiles, Destination(w)).tileType == Point && At(w.tiles, Destination(w)).canInteract
    ensures CheckPacManCollisions(rules, w, Destination(w), tick)
         == (w.(tiles := SetInteract(w.tiles, Destination(w), false)), Scored)
  {
  }

  /**
   * Eating the last point, as a Point or an Energizer, starts the next level: one point more, the
   * counter refilled, the ghosts re-initialised for the new level and the player back on the
   * start cell.
   */
  lemma EatLastPoint(rules: Rules, w: World, tick: int)
    requires Valid(w) && w.remainingPointTiles == 1
    requires At(w.tiles, Destination(w)).tileType in {Point, Energizer} && At(w.tiles, Destination(w)).canInteract
    ensures var r := UpdatePacMan(rules, w, tick);
      && r.score == w.score + 1
      && r.level == w.level + 1 && r.remainingPointTiles == w.totalPointTiles
      && r.pacMan == Player(PlayerStart, DirVec(Still))
      && r.ghosts == InitGhosts(rules.port, w.score + 1, w.level + 1)
      && r.tiles == ResetTiles(w.tiles)
  {
    LastPointStep(rules, w, tick);
    NextLevelAfterPoint(rules.port, w);
  }

  lemma NextLevelAfterPoint(port: Port, w: World)
    requires Valid(w) && InBounds(Destination(w))
    ensures var r := InitLevel(port, PointEaten(w), w.level + 1);
      && r.score == w.score + 1
      && r.level == w.level + 1 && r.remainingPointTiles == w.totalPointTiles
      && r.pacMan == Player(PlayerStart, DirVec(Still))
      && r.ghosts == InitGhosts(port, w.score + 1, w.level + 1)
      && r.tiles == ResetTiles(w.tiles)
  {
    ResetSameDefaults(PointEaten(w).tiles, w.tiles);
  }

  /** A spent Point (or Energizer) earns nothing and the player simply moves onto it. */
  lemma SpentTileEarnsNothing(rules: Rules, w: World, tick: int)
    requires Valid(w)
    requires At(w.tiles, Destination(w)).tileType in {Point, Energizer}
    requires !At(w.tiles, Destination(w)).canInteract
    ensures var r := UpdatePacMan(rules, w, tick);
      && r.score == w.score && r.remainingPointTiles == w.remainingPointTiles
      && r.pacMan.pos == Destination(w) && r.level == w.level
  {
  }

  /**
   * Walking into a frightened ghost: the ghost is eaten for 10 and the point path adds 1 more,
   * consuming one remaining point; the player moves onto the cell, unless that was the last point,
   * in which case the next level starts.
   */
  lemma EatFrightenedGhost(rules: Rules, w: World, tick: int)
    requires Valid(w)
    requires IsGhostMark(At(w.tiles, Destination(w)).tileType)
    requires w.ghosts[KindIndex(MarkKind(At(w.tiles, Destination(w)).tileType))].state == Frightened
    ensures var r := UpdatePacMan(rules, w, tick);
      && r.score == w.score + 11
      && (w.remainingPointTiles != 1 ==> r.pacMan.pos == Destination(w) && r.remainingPointTiles == w.remainingPointTiles - 1)
      && (w.remainingPointTiles == 1 ==>
            r.level == w.level + 1 && r.remainingPointTiles == w.totalPointTiles
            && r.pacMan == Player(PlayerStart, DirVec(Still)))
  {
    var p := Destination(w);
    var i := KindIndex(MarkKind(At(w.tiles, p).tileType));
    assert CheckPacManCollisions(rules, w, p, tick) == (EatGhost(w, i, tick), Scored);
  }

  /**
   * Walking into a ghost that is not frightened costs a life and the player does not move onto
   * the cell: it goes back to the start, or stays put when the run ends.
   */
  lemma WalkIntoGhost(rules: Rules, w: World, tick: int)
    requires Valid(w)
    requires IsGhostMark(At(w.tiles, Destination(w)).tileType)
    requires w.ghosts[KindIndex(MarkKind(At(w.tiles, Destination(w)).tileType))].state != Frightened
    ensures UpdatePacMan(rules, w, tick) == PacManLoseLife(w)
  {
    UpdatePacManSteps(rules, w, tick);
    GhostMarkOutcome(rules, w, Destination(w), tick);
  }
}
