/**
 * The ghosts' step: the collision check against the player's marker, the move along the current
 * direction, the direction probes that pick the next direction, and the marker repaint.
 *
 * Every probe runs the full collision check, so a probe that finds the player can eat the
 * (frightened) ghost or cost the player a life; the world is threaded through the probes in order.
 */
module GhostMoves {
  import opened Vectors
  import opened Rules
  import opened Maze
  import opened Ghosts
  import opened World

  /** The ghost collision result: HitWall is the source's 2, Eaten its -1, Killed its 1, Clear its 0. */
  datatype GhostHit = HitWall | Eaten | Killed | Clear

  /**
   * What a ghost's step may change about the game's progress: the level, the point counters and
   * the hearts stay; the score can only grow, lives can only be lost, and a stopped run stays stopped.
   */
  predicate Progress(w: World, r: World) {
    && r.level == w.level && r.totalPointTiles == w.totalPointTiles
    && r.remainingPointTiles == w.remainingPointTiles && r.hearts == w.hearts
    && r.score >= w.score && r.numLives <= w.numLives && (r.running ==> w.running)
  }

  /**
   * checkGhostCollisions / check_ghost_collisions for ghost i entering p: a wall blocks; the
   * player's marker either gets the ghost eaten (when it is frightened) or costs the player a
   * life; anything else is clear.
   */
  function CheckGhostCollisions(w: World, i: nat, p: Vec, tick: int): (r: (World, GhostHit))
    requires Valid(w) && i < 4 && InBounds(p)
    ensures Valid(r.0) && SameDefaults(w.tiles, r.0.tiles) && Progress(w, r.0)
    ensures r.1 == HitWall <==> At(w.tiles, p).tileType == Wall
    ensures r.1 == Eaten <==> At(w.tiles, p).tileType == PacMan && w.ghosts[i].state == Frightened
    ensures r.1 == Killed <==> At(w.tiles, p).tileType == PacMan && w.ghosts[i].state != Frightened
    ensures r.1 == Eaten ==> r.0 == EatGhost(w, i, tick)
    ensures r.1 == Killed ==> r.0 == PacManLoseLife(w)
    ensures r.1 == HitWall || r.1 == Clear ==> r.0 == w
    ensures forall j :: 0 <= j < 4 && j != i ==> r.0.ghosts[j] == w.ghosts[j]
    ensures r.1 != Eaten ==> r.0.ghosts[i] == w.ghosts[i]
  {
    var t := At(w.tiles, p).tileType;
    if t == Wall then (w, HitWall)
    else if t == PacMan then
      if w.ghosts[i].state == Frightened then (EatGhost(w, i, tick), Eaten)
      else (PacManLoseLife(w), Killed)
    else (w, Clear)
  }

  /** isRedzone / is_redzone: the cells above the ghost pen and above the player start. */
  predicate IsRedzone(p: Vec) {
    10 <= p.x <= 17 && (p.y == 14 || p.y == 26)
  }

  /** The cell one ghost step along d from pos, wrapped into the field. */
  function StepTo(port: Port, level: nat, pos: Vec, d: Vec): (r: Vec)
    ensures InBounds(r)
  {
    WrapIntoField(Add(pos, GhostStep(port, level, d)))
  }

  /** Give ghost i the direction d; nothing else changes. */
  function Face(w: World, i: nat, d: Vec): (r: World)
    requires Valid(w) && i < 4
    ensures Valid(r) && r == w.(ghosts := w.ghosts[i := w.ghosts[i].(dir := d)])
  {
    ReplaceGhost(w, i, w.ghosts[i].(dir := d));
    w.(ghosts := w.ghosts[i := w.ghosts[i].(dir := d)])
  }

  /** Probes skip Up inside the red zone and the reverse of the direction the ghost arrived with. */
  predicate Skipped(pos: Vec, rev: Vec, d: Dir) {
    (IsRedzone(pos) && d == Up) || DirVec(d) == rev
  }

  /** The directions a ghost may face after probing: its prior one, none, or an unreversed probe. */
  predicate Heading(v: Vec, prior: Vec, rev: Vec, dirs: seq<Dir>) {
    || v == prior
    || v == DirVec(Still)
    || exists k :: 0 <= k < |dirs| && DirVec(dirs[k]) != rev && v == DirVec(dirs[k])
  }

  /**
   * One probe of the loop in updateGhostPos / update_ghost_pos: direction d is skipped, or its
   * test cell is collision-checked; unless that reports Eaten or HitWall, d becomes the ghost's
   * direction when strictly nearer the target than `minDist`. Returns the world and the new minimum.
   */
  function ProbeOne(rules: Rules, w: World, i: nat, tick: int, rev: Vec, d: Dir, minDist: int): (r: (World, int))
    requires Valid(w) && i < 4
    ensures Valid(r.0) && SameDefaults(w.tiles, r.0.tiles) && Progress(w, r.0)
    ensures forall j :: 0 <= j < 4 && j != i ==> r.0.ghosts[j] == w.ghosts[j]
    ensures r.0.ghosts[i].target == w.ghosts[i].target && r.0.ghosts[i].kind == w.ghosts[i].kind
    ensures r.0.ghosts[i].releaseThreshold == w.ghosts[i].releaseThreshold
    ensures w.ghosts[i].state != Frightened ==> r.0.ghosts[i] == w.ghosts[i].(dir := r.0.ghosts[i].dir)
    ensures || r.0.ghosts[i].dir == w.ghosts[i].dir
            || r.0.ghosts[i].dir == DirVec(Still)
            || (DirVec(d) != rev && r.0.ghosts[i].dir == DirVec(d))
  {
    var g := w.ghosts[i];
    if Skipped(g.pos, rev, d) then (w, minDist)
    else
      var testPos := StepTo(rules.port, w.level, g.pos, DirVec(d));
      var (w1, hit) := CheckGhostCollisions(w, i, testPos, tick);
      if hit == Eaten || hit == HitWall then (w1, minDist)
      else
        var dist := Dist2(testPos, w1.ghosts[i].target);
        if dist < minDist then (Face(w1, i, DirVec(d)), dist) else (w1, minDist)
  }

  /**
   * The direction probe loop of updateGhostPos / update_ghost_pos over `dirs`, with `minDist` the
   * smallest squared distance seen so far. A probe whose collision check reports Eaten or HitWall
   * is no candidate; any other (including one that just cost the player a life) is, and replaces
   * the direction when strictly nearer the target. The ghost's position is re-read on every probe.
   */
  function Probe(rules: Rules, w: World, i: nat, tick: int, rev: Vec, dirs: seq<Dir>, minDist: int): (r: World)
    requires Valid(w) && i < 4
    ensures Valid(r) && SameDefaults(w.tiles, r.tiles) && Progress(w, r)
    ensures forall j :: 0 <= j < 4 && j != i ==> r.ghosts[j] == w.ghosts[j]
    ensures r.ghosts[i].target == w.ghosts[i].target && r.ghosts[i].kind == w.ghosts[i].kind
    ensures r.ghosts[i].releaseThreshold == w.ghosts[i].releaseThreshold
    ensures w.ghosts[i].state != Frightened ==> r.ghosts[i] == w.ghosts[i].(dir := r.ghosts[i].dir)
    ensures Heading(r.ghosts[i].dir, w.ghosts[i].dir, rev, dirs)
    decreases |dirs|
  {
    if dirs == [] then w
    else
      var (w1, m1) := ProbeOne(rules, w, i, tick, rev, dirs[0], minDist);
      var r := Probe(rules, w1, i, tick, rev, dirs[1..], m1);
      SameDefaultsTransitive(w.tiles, w1.tiles, r.tiles);
      HeadingShift(r.ghosts[i].dir, w1.ghosts[i].dir, w.ghosts[i].dir, rev, dirs);
      r
  }

  lemma HeadingShift(v: Vec, mid: Vec, prior: Vec, rev: Vec, dirs: seq<Dir>)
    requires |dirs| > 0 && Heading(v, mid, rev, dirs[1..])
    requires mid == prior || mid == DirVec(Still) || (DirVec(dirs[0]) != rev && mid == DirVec(dirs[0]))
    ensures Heading(v, prior, rev, dirs)
  {
    if v != mid && v != DirVec(Still) {
      var k :| 0 <= k < |dirs[1..]| && DirVec(dirs[1..][k]) != rev && v == DirVec(dirs[1..][k]);
      assert dirs[k + 1] == dirs[1..][k];
    } else if v == mid && mid != prior && mid != DirVec(Still) {
      assert DirVec(dirs[0]) != rev && v == DirVec(dirs[0]);
    }
  }

  // ---------------------------------------------------------------------------------------
  // The nearest-direction rule, stated independently of the loop

  /** What the probes of ghost i read: the port, the level, the grid, where it is, where it aims. */
  datatype Probing = Probing(port: Port, level: nat, tiles: Grid, pos: Vec, target: Vec, rev: Vec)

  function Ctx(rules: Rules, w: World, i: nat, rev: Vec): Probing
    requires |w.ghosts| == 4 && i < 4
  {
    Probing(rules.port, w.level, w.tiles, w.ghosts[i].pos, w.ghosts[i].target, rev)
  }

  function TestCell(c: Probing, d: Dir): (r: Vec)
    ensures InBounds(r)
  {
    StepTo(c.port, c.level, c.pos, DirVec(d))
  }

  /** A direction is a candidate when it is not skipped and its test cell is not a wall. */
  predicate Eligible(c: Probing, d: Dir)
    requires Shaped(c.tiles)
  {
    !Skipped(c.pos, c.rev, d) && At(c.tiles, TestCell(c, d)).tileType != Wall
  }

  function Cost(c: Probing, d: Dir): int {
    Dist2(TestCell(c, d), c.target)
  }

  /** No probe of the context meets the player's marker, so the probes have no side effects. */
  predicate Quiet(c: Probing, dirs: seq<Dir>)
    requires Shaped(c.tiles)
  {
    forall k :: 0 <= k < |dirs| && !Skipped(c.pos, c.rev, dirs[k]) ==> At(c.tiles, TestCell(c, dirs[k])).tileType != PacMan
  }

  /**
   * dirs[k] is the first candidate of least cost, and that cost is below `bound`: every earlier
   * candidate costs strictly more and every later one at least as much.
   */
  predicate FirstNearest(c: Probing, dirs: seq<Dir>, bound: int, k: int)
    requires Shaped(c.tiles)
  {
    && 0 <= k < |dirs| && Eligible(c, dirs[k]) && Cost(c, dirs[k]) < bound
    && (forall j :: 0 <= j < k && Eligible(c, dirs[j]) ==> Cost(c, dirs[j]) > Cost(c, dirs[k]))
    && (forall j :: k < j < |dirs| && Eligible(c, dirs[j]) ==> Cost(c, dirs[j]) >= Cost(c, dirs[k]))
  }

  /** No candidate costs less than `bound`. */
  predicate NoneBelow(c: Probing, dirs: seq<Dir>, bound: int)
    requires Shaped(c.tiles)
  {
    forall j :: 0 <= j < |dirs| && Eligible(c, dirs[j]) ==> Cost(c, dirs[j]) >= bound
  }

  /** Facing twice is facing the second way; facing the way one already faces changes nothing. */
  lemma FaceFacts(w: World, i: nat, d: Vec, e: Vec)
    requires Valid(w) && i < 4
    ensures Face(Face(w, i, d), i, e) == Face(w, i, e)
    ensures Face(w, i, w.ghosts[i].dir) == w
  {
    assert w.ghosts[i].(dir := w.ghosts[i].dir) == w.ghosts[i];
    assert w.ghosts[i := w.ghosts[i]] == w.ghosts;
  }

  /** A probe that cannot meet the player takes direction d exactly when d is a candidate below the bound. */
  lemma QuietProbeOne(rules: Rules, w: World, i: nat, tick: int, rev: Vec, d: Dir, minDist: int)
    requires Valid(w) && i < 4
    requires var c := Ctx(rules, w, i, rev);
      Skipped(c.pos, c.rev, d) || At(c.tiles, TestCell(c, d)).tileType != PacMan
    ensures var c := Ctx(rules, w, i, rev);
      ProbeOne(rules, w, i, tick, rev, d, minDist) ==
        if Eligible(c, d) && Cost(c, d) < minDist then (Face(w, i, DirVec(d)), Cost(c, d)) else (w, minDist)
  {
    var c := Ctx(rules, w, i, rev);
    if !Skipped(c.pos, c.rev, d) {
      var testPos := TestCell(c, d);
      if At(w.tiles, testPos).tileType == Wall {
        assert CheckGhostCollisions(w, i, testPos, tick) == (w, HitWall);
      } else {
        assert CheckGhostCollisions(w, i, testPos, tick) == (w, Clear);
      }
    }
  }

  /**
   * When no probe meets the player, the probe loop changes nothing but ghost i's direction, and
   * that direction is the first nearest candidate, or the prior one when no candidate is below
   * the bound.
   */
  lemma {:induction false} ProbePicksNearest(rules: Rules, w: World, i: nat, tick: int, rev: Vec, dirs: seq<Dir>, minDist: int)
    requires Valid(w) && i < 4 && Quiet(Ctx(rules, w, i, rev), dirs)
    ensures var r := Probe(rules, w, i, tick, rev, dirs, minDist);
      var c := Ctx(rules, w, i, rev);
      && r == Face(w, i, r.ghosts[i].dir)
      && ((NoneBelow(c, dirs, minDist) && r.ghosts[i].dir == w.ghosts[i].dir)
          || exists k :: FirstNearest(c, dirs, minDist, k) && r.ghosts[i].dir == DirVec(dirs[k]))
    decreases |dirs|
  {
    if dirs == [] {
      FaceFacts(w, i, w.ghosts[i].dir, w.ghosts[i].dir);
    } else {
      var c := Ctx(rules, w, i, rev);
      QuietTail(c, dirs);
      QuietProbeOne(rules, w, i, tick, rev, dirs[0], minDist);
      var (w1, m1) := ProbeOne(rules, w, i, tick, rev, dirs[0], minDist);
      assert Ctx(rules, w1, i, rev) == c;
      ProbePicksNearest(rules, w1, i, tick, rev, dirs[1..], m1);
      NearestStep(rules, w, i, tick, rev, dirs, minDist);
    }
  }

  /** Quietness of a probe sequence carries over to its tail. */
  lemma QuietTail(c: Probing, dirs: seq<Dir>)
    requires Shaped(c.tiles) && |dirs| > 0 && Quiet(c, dirs)
    ensures Quiet(c, dirs[1..])
  {
    var rest := dirs[1..];
    forall k | 0 <= k < |rest| && !Skipped(c.pos, c.rev, rest[k])
      ensures At(c.tiles, TestCell(c, rest[k])).tileType != PacMan
    {
      assert rest[k] == dirs[k + 1];
    }
  }

  /** From the nearest-direction rule after the first quiet probe to the rule for the whole loop. */
  lemma NearestStep(rules: Rules, w: World, i: nat, tick: int, rev: Vec, dirs: seq<Dir>, minDist: int)
    requires Valid(w) && i < 4 && |dirs| > 0
    requires var c := Ctx(rules, w, i, rev);
      Skipped(c.pos, c.rev, dirs[0]) || At(c.tiles, TestCell(c, dirs[0])).tileType != PacMan
    requires var (w1, m1) := ProbeOne(rules, w, i, tick, rev, dirs[0], minDist);
      var r := Probe(rules, w1, i, tick, rev, dirs[1..], m1);
      var c := Ctx(rules, w, i, rev);
      && r == Face(w1, i, r.ghosts[i].dir)
      && ((NoneBelow(c, dirs[1..], m1) && r.ghosts[i].dir == w1.ghosts[i].dir)
          || exists k :: FirstNearest(c, dirs[1..], m1, k) && r.ghosts[i].dir == DirVec(dirs[1..][k]))
    ensures var r := Probe(rules, w, i, tick, rev, dirs, minDist);
      var c := Ctx(rules, w, i, rev);
      && r == Face(w, i, r.ghosts[i].dir)
      && ((NoneBelow(c, dirs, minDist) && r.ghosts[i].dir == w.ghosts[i].dir)
          || exists k :: FirstNearest(c, dirs, minDist, k) && r.ghosts[i].dir == DirVec(dirs[k]))
  {
    var c := Ctx(rules, w, i, rev);
    QuietProbeOne(rules, w, i, tick, rev, dirs[0], minDist);
    var took := Eligible(c, dirs[0]) && Cost(c, dirs[0]) < minDist;
    var (w1, m1) := ProbeOne(rules, w, i, tick, rev, dirs[0], minDist);
    var r := Probe(rules, w, i, tick, rev, dirs, minDist);
    assert r == Probe(rules, w1, i, tick, rev, dirs[1..], m1);
    FaceFacts(w, i, DirVec(dirs[0]), r.ghosts[i].dir);
    ShiftNearest(c, dirs, minDist, r.ghosts[i].dir, w1.ghosts[i].dir, took);
  }

  /**
   * The induction step of ProbePicksNearest: from the rule on the tail (with the bound the head
   * leaves behind) to the rule on the whole sequence. `took` says whether the head was taken.
   */
  lemma ShiftNearest(c: Probing, dirs: seq<Dir>, bound: int, chosen: Vec, tailStart: Vec, took: bool)
    requires Shaped(c.tiles) && |dirs| > 0
    requires took ==> Eligible(c, dirs[0]) && Cost(c, dirs[0]) < bound && tailStart == DirVec(dirs[0])
    requires !took ==> !Eligible(c, dirs[0]) || Cost(c, dirs[0]) >= bound
    requires var b := if took then Cost(c, dirs[0]) else bound;
      || (NoneBelow(c, dirs[1..], b) && chosen == tailStart)
      || exists k :: FirstNearest(c, dirs[1..], b, k) && chosen == DirVec(dirs[1..][k])
    ensures || (!took && NoneBelow(c, dirs, bound) && chosen == tailStart)
            || exists k :: FirstNearest(c, dirs, bound, k) && chosen == DirVec(dirs[k])
  {
    var rest := dirs[1..];
    var b := if took then Cost(c, dirs[0]) else bound;
    if NoneBelow(c, rest, b) && chosen == tailStart {
      if took {
        ShiftNoneTaken(c, dirs);
      } else {
        ShiftNoneSkipped(c, dirs, bound);
      }
    } else {
      var k :| FirstNearest(c, rest, b, k) && chosen == DirVec(rest[k]);
      ShiftFirst(c, dirs, b, bound, k);
    }
  }

  /** A head that was taken and that nothing in the tail undercuts is the first nearest. */
  lemma ShiftNoneTaken(c: Probing, dirs: seq<Dir>)
    requires Shaped(c.tiles) && |dirs| > 0 && Eligible(c, dirs[0])
    requires NoneBelow(c, dirs[1..], Cost(c, dirs[0]))
    ensures forall bound :: Cost(c, dirs[0]) < bound ==> FirstNearest(c, dirs, bound, 0)
  {
    forall j | 0 < j < |dirs|
      ensures dirs[j] == dirs[1..][j - 1]
    {
    }
  }

  /** A head that was not taken adds nothing below the bound. */
  lemma ShiftNoneSkipped(c: Probing, dirs: seq<Dir>, bound: int)
    requires Shaped(c.tiles) && |dirs| > 0
    requires !Eligible(c, dirs[0]) || Cost(c, dirs[0]) >= bound
    requires NoneBelow(c, dirs[1..], bound)
    ensures NoneBelow(c, dirs, bound)
  {
    forall j | 0 <= j < |dirs| && Eligible(c, dirs[j])
      ensures Cost(c, dirs[j]) >= bound
    {
      if j > 0 { assert dirs[j] == dirs[1..][j - 1]; }
    }
  }

  /**
   * The first nearest of the tail, under the bound the head leaves behind, is the first nearest
   * of the whole sequence.
   */
  lemma ShiftFirst(c: Probing, dirs: seq<Dir>, b: int, bound: int, k: int)
    requires Shaped(c.tiles) && |dirs| > 0 && b <= bound
    requires Eligible(c, dirs[0]) ==> Cost(c, dirs[0]) >= b
    requires FirstNearest(c, dirs[1..], b, k)
    ensures FirstNearest(c, dirs, bound, k + 1) && dirs[k + 1] == dirs[1..][k]
  {
    var rest := dirs[1..];
    assert dirs[k + 1] == rest[k];
    forall j | 0 <= j < k + 1 && Eligible(c, dirs[j])
      ensures Cost(c, dirs[j]) > Cost(c, dirs[k + 1])
    {
      if j > 0 { assert dirs[j] == rest[j - 1]; }
    }
    forall j | k + 1 < j < |dirs| && Eligible(c, dirs[j])
      ensures Cost(c, dirs[j]) >= Cost(c, dirs[k + 1])
    {
      assert dirs[j] == rest[j - 1];
    }
  }

  /** The first nearest candidate is unique, so the rule above determines the direction. */
  lemma FirstNearestUnique(c: Probing, dirs: seq<Dir>, bound: int, k: int, m: int)
    requires Shaped(c.tiles) && FirstNearest(c, dirs, bound, k) && FirstNearest(c, dirs, bound, m)
    ensures k == m
  {
  }

  // ---------------------------------------------------------------------------------------
  // The ghost's step

  /** The start of the probe loop: no distance seen yet. */
  const NoDistance := 100000

  /** Ghost i re-targeted; nothing else changes. */
  function Retarget(rules: Rules, w: World, i: nat, rnd: Vec): (r: World)
    requires Valid(w) && i < 4
    ensures Valid(r) && r == w.(ghosts := w.ghosts[i := Retargeted(rules, w, i, rnd)])
  {
    var g1 := Retargeted(rules, w, i, rnd);
    ReplaceGhost(w, i, g1);
    w.(ghosts := w.ghosts[i := g1])
  }

  /** Ghost i placed on the open cell p; nothing else changes. */
  function MoveGhost(w: World, i: nat, p: Vec): (r: World)
    requires Valid(w) && i < 4 && InBounds(p) && Open(w.tiles, p)
    ensures Valid(r) && r == w.(ghosts := w.ghosts[i := w.ghosts[i].(pos := p)])
  {
    var g := w.ghosts[i];
    assert GhostFits(w.tiles, g, i);
    ReplaceGhost(w, i, g.(pos := p));
    w.(ghosts := w.ghosts[i := g.(pos := p)])
  }

  /** The cell the step of ghost i heads for. */
  function Ahead(rules: Rules, w: World, i: nat): (r: Vec)
    requires |w.ghosts| == 4 && i < 4
    ensures InBounds(r)
  {
    StepTo(rules.port, w.level, w.ghosts[i].pos, w.ghosts[i].dir)
  }

  /** Reversing a non-zero direction never yields the direction itself or no direction. */
  lemma ReverseDiffers(d: Vec)
    requires d != DirVec(Still)
    ensures Reverse(d) != d && Reverse(d) != DirVec(Still)
  {
  }

  /** A heading that starts away from `rev` and never probes `rev` stays away from it. */
  lemma HeadingAvoids(v: Vec, prior: Vec, rev: Vec, dirs: seq<Dir>)
    requires Heading(v, prior, rev, dirs) && prior != rev && DirVec(Still) != rev
    ensures v != rev
  {
  }

  /** Ghost i moved onto the open cell p and its probes run from there. */
  function MoveAndProbe(rules: Rules, w: World, i: nat, tick: int, p: Vec, rev: Vec): (r: World)
    requires Valid(w) && i < 4 && InBounds(p) && Open(w.tiles, p)
    ensures Valid(r) && SameDefaults(w.tiles, r.tiles) && Progress(w, r)
    ensures forall j :: 0 <= j < 4 && j != i ==> r.ghosts[j] == w.ghosts[j]
    ensures r.ghosts[i].kind == w.ghosts[i].kind && r.ghosts[i].releaseThreshold == w.ghosts[i].releaseThreshold
    ensures Heading(r.ghosts[i].dir, w.ghosts[i].dir, rev, ProbeOrder)
    ensures w.ghosts[i].state != Frightened ==> r.ghosts[i] == w.ghosts[i].(pos := p, dir := r.ghosts[i].dir)
  {
    Probe(rules, MoveGhost(w, i, p), i, tick, rev, ProbeOrder, NoDistance)
  }

  /**
   * The step of a ghost that has its target: one step along its direction, stopped by a wall or
   * by being eaten, and otherwise followed by the probes from the new cell. The ghost never
   * ends up facing straight back.
   */
  function StepAndProbe(rules: Rules, w: World, i: nat, tick: int): (r: World)
    requires Valid(w) && i < 4
    ensures Valid(r) && SameDefaults(w.tiles, r.tiles) && Progress(w, r)
    ensures forall j :: 0 <= j < 4 && j != i ==> r.ghosts[j] == w.ghosts[j]
    ensures r.ghosts[i].kind == w.ghosts[i].kind && r.ghosts[i].releaseThreshold == w.ghosts[i].releaseThreshold
    ensures w.ghosts[i].dir != DirVec(Still) ==> r.ghosts[i].dir != Reverse(w.ghosts[i].dir)
  {
    var g := w.ghosts[i];
    var newPos := Ahead(rules, w, i);
    var (w2, hit) := CheckGhostCollisions(w, i, newPos, tick);
    assert g.dir != DirVec(Still) ==> Reverse(g.dir) != DirVec(Still) && Reverse(g.dir) != g.dir;
    if hit == Eaten || hit == HitWall then w2
    else
      assert At(w2.tiles, newPos).defaultType == At(w.tiles, newPos).defaultType;
      var r := MoveAndProbe(rules, w2, i, tick, newPos, Reverse(g.dir));
      SameDefaultsTransitive(w.tiles, w2.tiles, r.tiles);
      if g.dir != DirVec(Still) then
        HeadingAvoids(r.ghosts[i].dir, g.dir, Reverse(g.dir), ProbeOrder);
        r
      else r
  }

  /**
   * updateGhostPos / update_ghost_pos for ghost i, with `rnd` the random point a frightened
   * ghost aims at. A dormant ghost does nothing. Otherwise the ghost re-targets (Blinky's
   * position as it stands now), and tries one step along its direction: when that step gets it
   * eaten or meets a wall it stays where the check left it; otherwise it moves there (even when
   * the step cost the player a life) and probes Up, Down, Left, Right for its next direction.
   * Re-targeting keeps the direction, so the ghost never ends up facing straight back.
   */
  function UpdateGhostPos(rules: Rules, w: World, i: nat, tick: int, rnd: Vec): (r: World)
    requires Valid(w) && i < 4
    ensures Valid(r) && SameDefaults(w.tiles, r.tiles) && Progress(w, r)
    ensures forall j :: 0 <= j < 4 && j != i ==> r.ghosts[j] == w.ghosts[j]
    ensures r.ghosts[i].kind == w.ghosts[i].kind && r.ghosts[i].releaseThreshold == w.ghosts[i].releaseThreshold
    ensures w.ghosts[i].state == Dormant ==> r == w
    ensures w.ghosts[i].dir != DirVec(Still) ==> r.ghosts[i].dir != Reverse(w.ghosts[i].dir)
  {
    if w.ghosts[i].state == Dormant then
      assert w.ghosts[i].dir != DirVec(Still) ==> Reverse(w.ghosts[i].dir) != w.ghosts[i].dir;
      w
    else StepAndProbe(rules, Retarget(rules, w, i, rnd), i, tick)
  }

  /** The ghost after re-targeting, as UpdateGhostPos sees it. */
  function Retargeted(rules: Rules, w: World, i: nat, rnd: Vec): Ghost
    requires |w.ghosts| == 4 && i < 4
  {
    UpdateGhostTarget(rules, w.ghosts[i], w.pacMan.pos, w.pacMan.dir, w.ghosts[0].pos, rnd)
  }

  /** A wall ahead: the ghost keeps its cell and direction; only its target is updated. */
  lemma WallHoldsGhost(rules: Rules, w: World, i: nat, tick: int, rnd: Vec)
    requires Valid(w) && i < 4 && w.ghosts[i].state != Dormant
    requires At(w.tiles, Ahead(rules, w, i)).tileType == Wall
    ensures UpdateGhostPos(rules, w, i, tick, rnd) == w.(ghosts := w.ghosts[i := Retargeted(rules, w, i, rnd)])
  {
    var w1 := Retarget(rules, w, i, rnd);
    assert Ahead(rules, w1, i) == Ahead(rules, w, i);
    assert CheckGhostCollisions(w1, i, Ahead(rules, w, i), tick) == (w1, HitWall);
  }

  /** A frightened ghost stepping onto the player is eaten: back to its spawn cell, dormant, +10. */
  lemma FrightenedGhostMeetsPlayer(rules: Rules, w: World, i: nat, tick: int, rnd: Vec)
    requires Valid(w) && i < 4 && w.ghosts[i].state == Frightened
    requires At(w.tiles, Ahead(rules, w, i)).tileType == PacMan
    ensures var r := UpdateGhostPos(rules, w, i, tick, rnd);
      && r.score == w.score + 10 && r.ghosts[i].state == Dormant
      && r.ghosts[i].pos == SpawnPos(w.ghosts[i].kind) && r.tiles == w.tiles
  {
    var w1 := Retarget(rules, w, i, rnd);
    assert Ahead(rules, w1, i) == Ahead(rules, w, i);
    assert CheckGhostCollisions(w1, i, Ahead(rules, w, i), tick) == (EatGhost(w1, i, tick), Eaten);
  }

  /**
   * A chasing or scattering ghost stepping onto the player costs a life and still moves onto the
   * cell; no later probe can move it, since only a frightened ghost can be eaten.
   */
  lemma KillerMovesOn(rules: Rules, w: World, i: nat, tick: int, rnd: Vec)
    requires Valid(w) && i < 4 && (w.ghosts[i].state == Chase || w.ghosts[i].state == Scatter)
    requires At(w.tiles, Ahead(rules, w, i)).tileType == PacMan
    ensures var r := UpdateGhostPos(rules, w, i, tick, rnd);
      && r.ghosts[i].pos == Ahead(rules, w, i) && r.ghosts[i].state == w.ghosts[i].state
      && (w.numLives > 0 ==> r.numLives < w.numLives) && (w.numLives == 0 ==> !r.running)
  {
    var w1 := Retarget(rules, w, i, rnd);
    assert Ahead(rules, w1, i) == Ahead(rules, w, i);
    KillingStep(rules, w1, i, tick);
  }

  /** The step of KillerMovesOn once the ghost has its target. */
  lemma KillingStep(rules: Rules, w: World, i: nat, tick: int)
    requires Valid(w) && i < 4 && (w.ghosts[i].state == Chase || w.ghosts[i].state == Scatter)
    requires At(w.tiles, Ahead(rules, w, i)).tileType == PacMan
    ensures var r := StepAndProbe(rules, w, i, tick);
      && r.ghosts[i] == w.ghosts[i].(pos := Ahead(rules, w, i), dir := r.ghosts[i].dir)
      && (w.numLives > 0 ==> r.numLives < w.numLives) && (w.numLives == 0 ==> !r.running)
  {
    var p := Ahead(rules, w, i);
    var w2 := PacManLoseLife(w);
    assert CheckGhostCollisions(w, i, p, tick) == (w2, Killed);
    assert StepAndProbe(rules, w, i, tick) == MoveAndProbe(rules, w2, i, tick, p, Reverse(w.ghosts[i].dir));
  }

  /** The probing context after a quiet step onto `Ahead`. */
  function QuietCtx(rules: Rules, w: World, i: nat): Probing
    requires |w.ghosts| == 4 && i < 4
  {
    Probing(rules.port, w.level, w.tiles, Ahead(rules, w, i), w.ghosts[i].target, Reverse(w.ghosts[i].dir))
  }

  /**
   * The quiet step of a ghost with its target set: with no player in reach, it moves one step
   * along its direction and turns to the first nearest candidate direction of its new cell, or
   * keeps its direction when it has no candidate; the rest of the world is unchanged.
   */
  lemma QuietStepAndProbe(rules: Rules, w: World, i: nat, tick: int)
    requires Valid(w) && i < 4
    requires var t := At(w.tiles, Ahead(rules, w, i)).tileType; t != Wall && t != PacMan
    requires Quiet(QuietCtx(rules, w, i), ProbeOrder)
    ensures var r := StepAndProbe(rules, w, i, tick);
      var c := QuietCtx(rules, w, i);
      && r == w.(ghosts := w.ghosts[i := w.ghosts[i].(pos := Ahead(rules, w, i), dir := r.ghosts[i].dir)])
      && ((NoneBelow(c, ProbeOrder, NoDistance) && r.ghosts[i].dir == w.ghosts[i].dir)
          || exists k :: FirstNearest(c, ProbeOrder, NoDistance, k) && r.ghosts[i].dir == DirVec(ProbeOrder[k]))
  {
    ClearStep(rules, w, i, tick);
    QuietMoveAndProbe(rules, w, i, tick, Ahead(rules, w, i), Reverse(w.ghosts[i].dir));
  }

  /** A step onto a cell that is neither wall nor player is a plain move followed by the probes. */
  lemma ClearStep(rules: Rules, w: World, i: nat, tick: int)
    requires Valid(w) && i < 4
    requires var t := At(w.tiles, Ahead(rules, w, i)).tileType; t != Wall && t != PacMan
    ensures Open(w.tiles, Ahead(rules, w, i))
    ensures StepAndProbe(rules, w, i, tick) ==
            MoveAndProbe(rules, w, i, tick, Ahead(rules, w, i), Reverse(w.ghosts[i].dir))
  {
    assert CheckGhostCollisions(w, i, Ahead(rules, w, i), tick) == (w, Clear);
  }

  /** Moving onto p and probing quietly from there: the nearest-direction rule at p. */
  lemma QuietMoveAndProbe(rules: Rules, w: World, i: nat, tick: int, p: Vec, rev: Vec)
    requires Valid(w) && i < 4 && InBounds(p) && Open(w.tiles, p)
    requires Quiet(Probing(rules.port, w.level, w.tiles, p, w.ghosts[i].target, rev), ProbeOrder)
    ensures var r := MoveAndProbe(rules, w, i, tick, p, rev);
      var c := Probing(rules.port, w.level, w.tiles, p, w.ghosts[i].target, rev);
      && r == w.(ghosts := w.ghosts[i := w.ghosts[i].(pos := p, dir := r.ghosts[i].dir)])
      && ((NoneBelow(c, ProbeOrder, NoDistance) && r.ghosts[i].dir == w.ghosts[i].dir)
          || exists k :: FirstNearest(c, ProbeOrder, NoDistance, k) && r.ghosts[i].dir == DirVec(ProbeOrder[k]))
  {
    var g := w.ghosts[i];
    var w3 := MoveGhost(w, i, p);
    assert Ctx(rules, w3, i, rev) == Probing(rules.port, w.level, w.tiles, p, g.target, rev);
    ProbePicksNearest(rules, w3, i, tick, rev, ProbeOrder, NoDistance);
    var r := Probe(rules, w3, i, tick, rev, ProbeOrder, NoDistance);
    var v := r.ghosts[i].dir;
    assert w3.ghosts == w.ghosts[i := g.(pos := p)];
    UpdateTwice(w.ghosts, i, g.(pos := p), g.(pos := p, dir := v));
  }

  /** A second update at the same index overrides the first. */
  lemma UpdateTwice<T>(s: seq<T>, i: nat, a: T, b: T)
    requires i < |s|
    ensures s[i := a][i := b] == s[i := b]
  {
    var t := s[i := a][i := b];
    assert forall k :: 0 <= k < |t| ==> t[k] == s[i := b][k];
  }

  /**
   * The quiet step of a live ghost: it re-targets, moves one step and turns to the first nearest
   * candidate (never the way it came, never Up in the red zone).
   */
  lemma QuietStep(rules: Rules, w: World, i: nat, tick: int, rnd: Vec)
    requires Valid(w) && i < 4 && w.ghosts[i].state != Dormant
    requires var t := At(w.tiles, Ahead(rules, w, i)).tileType; t != Wall && t != PacMan
    requires Quiet(QuietCtx(rules, Retarget(rules, w, i, rnd), i), ProbeOrder)
    ensures var r := UpdateGhostPos(rules, w, i, tick, rnd);
      var g1 := Retargeted(rules, w, i, rnd);
      var c := QuietCtx(rules, Retarget(rules, w, i, rnd), i);
      && r == w.(ghosts := w.ghosts[i := g1.(pos := Ahead(rules, w, i), dir := r.ghosts[i].dir)])
      && ((NoneBelow(c, ProbeOrder, NoDistance) && r.ghosts[i].dir == w.ghosts[i].dir)
          || exists k :: FirstNearest(c, ProbeOrder, NoDistance, k) && r.ghosts[i].dir == DirVec(ProbeOrder[k]))
  {
    var w1 := Retarget(rules, w, i, rnd);
    var g1 := Retargeted(rules, w, i, rnd);
    assert Ahead(rules, w1, i) == Ahead(rules, w, i);
    QuietStepAndProbe(rules, w1, i, tick);
    var r := UpdateGhostPos(rules, w, i, tick, rnd);
    assert r == StepAndProbe(rules, w1, i, tick);
    UpdateTwice(w.ghosts, i, g1, g1.(pos := Ahead(rules, w, i), dir := r.ghosts[i].dir));
  }

  /** In the quiet step a ghost standing in the red zone after its move does not turn Up. */
  lemma RedzoneBarsUp(rules: Rules, w: World, i: nat, tick: int, rnd: Vec)
    requires Valid(w) && i < 4 && w.ghosts[i].state != Dormant
    requires var t := At(w.tiles, Ahead(rules, w, i)).tileType; t != Wall && t != PacMan
    requires Quiet(QuietCtx(rules, Retarget(rules, w, i, rnd), i), ProbeOrder)
    requires IsRedzone(Ahead(rules, w, i)) && w.ghosts[i].dir != DirVec(Up)
    ensures UpdateGhostPos(rules, w, i, tick, rnd).ghosts[i].dir != DirVec(Up)
  {
    QuietStep(rules, w, i, tick, rnd);
    var w1 := Retarget(rules, w, i, rnd);
    var c := QuietCtx(rules, w1, i);
    assert c.pos == Ahead(rules, w, i);
    var r := UpdateGhostPos(rules, w, i, tick, rnd);
    if r.ghosts[i].dir != w.ghosts[i].dir {
      var k :| FirstNearest(c, ProbeOrder, NoDistance, k) && r.ghosts[i].dir == DirVec(ProbeOrder[k]);
      assert ProbeOrder[k] != Up;
      DirVecInjective(ProbeOrder[k], Up);
    }
  }

  // ---------------------------------------------------------------------------------------
  // Markers and the per-tick update

  /**
   * updateGhostRepr / update_ghost_repr: the cell the ghost left gets its default type back and
   * the ghost's cell gets the ghost's marker.
   */
  function UpdateGhostRepr(w: World, i: nat, oldPos: Vec): (r: World)
    requires Valid(w) && i < 4 && InBounds(oldPos)
    ensures Valid(r) && SameDefaults(w.tiles, r.tiles) && r == w.(tiles := r.tiles)
    ensures At(r.tiles, w.ghosts[i].pos) == At(w.tiles, w.ghosts[i].pos).(tileType := GhostMark(w.ghosts[i].kind))
    ensures oldPos != w.ghosts[i].pos ==> At(r.tiles, oldPos).tileType == At(w.tiles, oldPos).defaultType
    ensures forall q :: InBounds(q) && q != oldPos && q != w.ghosts[i].pos ==> At(r.tiles, q) == At(w.tiles, q)
  {
    var g := w.ghosts[i];
    var vacated := Restore(w.tiles, oldPos);
    var t := SetType(vacated, g.pos, GhostMark(g.kind));
    assert GhostFits(w.tiles, g, i);
    MarkOpenCell(vacated, g.pos, GhostMark(g.kind));
    RetileKeepsValid(w, t);
    w.(tiles := t)
  }

  /**
   * updateGhost / update_ghost: the state machine, the step, then the repaint from the cell the
   * ghost stood on before the tick.
   */
  function UpdateGhost(rules: Rules, w: World, i: nat, tick: int, rnd: Vec): (r: World)
    requires Valid(w) && i < 4
    ensures Valid(r) && SameDefaults(w.tiles, r.tiles) && Progress(w, r)
    ensures forall j :: 0 <= j < 4 && j != i ==> r.ghosts[j] == w.ghosts[j]
    ensures At(r.tiles, r.ghosts[i].pos).tileType == GhostMark(r.ghosts[i].kind)
  {
    var g := UpdateGhostState(rules.port, w.ghosts[i], w.score, w.level, tick);
    assert GhostFits(w.tiles, w.ghosts[i], i);
    ReplaceGhost(w, i, g);
    var w1 := w.(ghosts := w.ghosts[i := g]);
    var w2 := UpdateGhostPos(rules, w1, i, tick, rnd);
    UpdateGhostRepr(w2, i, w.ghosts[i].pos)
  }

  /** Kinds lists each kind once, so a kind's index is its position in Kinds. */
  lemma KindsIndexed(i: nat)
    requires i < 4
    ensures MarkKind(GhostMark(Kinds[i])) == Kinds[i] && KindIndex(Kinds[i]) == i
  {
  }

  /**
   * The marker under a ghost right after its update names that ghost, so the player's collision
   * check finds this very ghost there.
   */
  lemma MarkerNamesGhost(rules: Rules, w: World, i: nat, tick: int, rnd: Vec)
    requires Valid(w) && i < 4
    ensures var r := UpdateGhost(rules, w, i, tick, rnd);
      && IsGhostMark(At(r.tiles, r.ghosts[i].pos).tileType)
      && KindIndex(MarkKind(At(r.tiles, r.ghosts[i].pos).tileType)) == i
  {
    var r := UpdateGhost(rules, w, i, tick, rnd);
    assert GhostFits(r.tiles, r.ghosts[i], i);
    var t := At(r.tiles, r.ghosts[i].pos).tileType;
    assert t == GhostMark(Kinds[i]);
    KindsIndexed(i);
  }

  /** Ghosts i, i + 1, ..., 3 updated in turn, each seeing the world the previous ones left. */
  function UpdateFrom(rules: Rules, w: World, i: nat, tick: int, rnd: GhostKind -> Vec): (r: World)
    requires Valid(w) && i <= 4
    ensures Valid(r) && SameDefaults(w.tiles, r.tiles) && Progress(w, r)
    ensures i < 4 ==> At(r.tiles, r.ghosts[3].pos).tileType == GhostClyde
    decreases 4 - i
  {
    if i == 4 then w
    else
      var w1 := UpdateGhost(rules, w, i, tick, rnd(Kinds[i]));
      var r := UpdateFrom(rules, w1, i + 1, tick, rnd);
      SameDefaultsTransitive(w.tiles, w1.tiles, r.tiles);
      assert i == 3 ==> GhostFits(w1.tiles, w1.ghosts[3], 3);
      r
  }

  /**
   * updateGhosts / update_ghosts: Blinky, Pinky, Inky, Clyde in that order; `rnd` gives each
   * kind's random point for this tick. Clyde, updated last, is always found under his marker.
   */
  function UpdateGhosts(rules: Rules, w: World, tick: int, rnd: GhostKind -> Vec): (r: World)
    requires Valid(w)
    ensures Valid(r) && SameDefaults(w.tiles, r.tiles) && Progress(w, r)
    ensures At(r.tiles, r.ghosts[3].pos).tileType == GhostClyde
  {
    UpdateFrom(rules, w, 0, tick, rnd)
  }
}
