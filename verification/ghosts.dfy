/**
 * The ghosts on their own: their record, their initial values, the Scatter/Chase/Frightened state
 * machine and the choice of target. Nothing here touches the maze or the player's record; the
 * moves and collisions that do are in module GhostMoves.
 */
module Ghosts {
  import opened Vectors
  import opened Rules
  import Maze

  datatype GhostKind = Blinky | Pinky | Inky | Clyde

  /** Dormant is the source's GhostState.None: penned, waiting for release. */
  datatype GhostState = Dormant | Chase | Scatter | Frightened

  /**
   * One ghost. Timestamps are ticks of the engine clock, -1 meaning "never";
   * `cyclesCompleted` counts completed Chase -> Scatter transitions.
   */
  datatype Ghost = Ghost(
    pos: Vec,
    dir: Vec,
    kind: GhostKind,
    state: GhostState,
    target: Vec,
    releaseThreshold: int,
    lastFrightened: int,
    lastEaten: int,
    lastChase: int,
    lastScatter: int,
    cyclesCompleted: int)

  /** The ghosts are kept in this order; the kind doubles as the index. */
  const Kinds: seq<GhostKind> := [Blinky, Pinky, Inky, Clyde]

  function KindIndex(k: GhostKind): (i: nat)
    ensures i < |Kinds| && Kinds[i] == k
  {
    match k
    case Blinky => 0
    case Pinky => 1
    case Inky => 2
    case Clyde => 3
  }

  /** ghostStartPos / ghost_start_pos: where a ghost is put back when it is eaten. */
  function SpawnPos(k: GhostKind): Vec {
    match k
    case Blinky => Vec(13, 16)
    case Pinky => Vec(13, 17)
    case Inky => Vec(11, 17)
    case Clyde => Vec(15, 17)
  }

  /** ghostScatterTargetPos / ghost_scatter_target_pos: one corner per kind. */
  function ScatterCorner(k: GhostKind): Vec {
    match k
    case Blinky => Vec(25, 0)
    case Pinky => Vec(2, 0)
    case Inky => Vec(27, 34)
    case Clyde => Vec(0, 34)
  }

  /** Blinky starts each level outside the pen, above the other three. */
  const BlinkyStart := Vec(13, 14)

  /** The rally point a ghost inside the home region heads for. */
  const HomeTarget := Vec(13, 15)

  function NewGhost(port: Port, k: GhostKind, threshold: int): Ghost {
    var pos := if k == Blinky then BlinkyStart else SpawnPos(k);
    var facing := if port == Js || k == Blinky then DirVec(Left) else DirVec(Still);
    Ghost(pos, facing, k, Dormant, ScatterCorner(k), threshold, -1, -1, -1, -1, 0)
  }

  /**
   * initGhosts / init_ghosts: four dormant ghosts with all timestamps "never" and no completed
   * cycle, Blinky at its start cell and the others at their spawn cells. Blinky and Pinky are
   * released at the current score, Inky and Clyde after floor(30 / m) and floor(60 / m) more
   * points. The browser port faces them all Left; the console port faces only Blinky Left.
   */
  function InitGhosts(port: Port, score: int, level: nat): (gs: seq<Ghost>)
    ensures |gs| == 4
    ensures forall i :: 0 <= i < 4 ==>
      && gs[i].kind == Kinds[i] && gs[i].state == Dormant && gs[i].cyclesCompleted == 0
      && gs[i].lastFrightened == -1 && gs[i].lastEaten == -1
      && gs[i].lastChase == -1 && gs[i].lastScatter == -1
      && gs[i].pos == (if i == 0 then BlinkyStart else SpawnPos(Kinds[i]))
      && gs[i].releaseThreshold >= score
    ensures gs[0].releaseThreshold == score && gs[1].releaseThreshold == score
    ensures gs[2].releaseThreshold == score + PerLevel(30, level)
    ensures gs[3].releaseThreshold == score + PerLevel(60, level)
    ensures gs[2].releaseThreshold <= gs[3].releaseThreshold
    ensures gs[0].dir == DirVec(Left)
    ensures forall i :: 1 <= i < 4 ==> gs[i].dir == (if port == Js then DirVec(Left) else DirVec(Still))
  {
    PerLevelMonotone(30, 60, level);
    [NewGhost(port, Blinky, score), NewGhost(port, Pinky, score),
     NewGhost(port, Inky, score + PerLevel(30, level)), NewGhost(port, Clyde, score + PerLevel(60, level))]
  }

  // ---------------------------------------------------------------------------------------
  // Frightening

  function Frighten(g: Ghost, tick: int): Ghost {
    if g.state == Dormant then g
    else
      var dir := if g.state == Scatter || g.state == Chase then Reverse(g.dir) else g.dir;
      g.(state := Frightened, lastFrightened := tick, dir := dir)
  }

  /**
   * frightenGhosts / frighten_ghosts: dormant ghosts are skipped; every other ghost becomes
   * Frightened at this tick, and those that were in Scatter or Chase turn round.
   */
  function FrightenGhosts(gs: seq<Ghost>, tick: int): (r: seq<Ghost>)
    ensures |r| == |gs|
    ensures forall i :: 0 <= i < |gs| && gs[i].state == Dormant ==> r[i] == gs[i]
    ensures forall i :: 0 <= i < |gs| && gs[i].state != Dormant ==>
      && r[i].state == Frightened && r[i].lastFrightened == tick
      && r[i].dir == (if gs[i].state == Frightened then gs[i].dir else Reverse(gs[i].dir))
      && r[i] == gs[i].(state := Frightened, lastFrightened := tick, dir := r[i].dir)
  {
    seq(|gs|, i requires 0 <= i < |gs| => Frighten(gs[i], tick))
  }

  // ---------------------------------------------------------------------------------------
  // The Scatter / Chase cycle

  function ScatterToChase(g: Ghost, scatterSeconds: int, tick: int): Ghost {
    if scatterSeconds > 0 && g.state == Scatter && tick - g.lastScatter >= scatterSeconds * TicksPerSecond
    then g.(state := Chase, lastChase := tick)
    else g
  }

  function ChaseToScatter(g: Ghost, chaseSeconds: int, tick: int): Ghost {
    if chaseSeconds > 0 && g.state == Chase && tick - g.lastChase >= chaseSeconds * TicksPerSecond
    then g.(state := Scatter, lastScatter := tick, cyclesCompleted := g.cyclesCompleted + 1)
    else g
  }

  /**
   * navigateGhostStateCycle / navigate_ghost_state_cycle. The browser port evaluates the
   * Chase -> Scatter check only inside `scatterSeconds > 0`; the console port evaluates the two
   * checks independently.
   */
  function Navigate(port: Port, g: Ghost, scatterSeconds: int, chaseSeconds: int, tick: int): Ghost {
    match port
    case Js =>
      if scatterSeconds > 0 then ChaseToScatter(ScatterToChase(g, scatterSeconds, tick), chaseSeconds, tick)
      else g
    case C => ChaseToScatter(ScatterToChase(g, scatterSeconds, tick), chaseSeconds, tick)
  }

  /** Scatter lasts floor(7 / m) seconds in the first two cycles and floor(5 / m) after. */
  function ScatterSeconds(cycles: int, level: nat): nat {
    if cycles <= 1 then PerLevel(7, level) else PerLevel(5, level)
  }

  /** Chase lasts 20 seconds, except in the fourth cycle where it never ends (-1). */
  function ChaseSeconds(cycles: int): int {
    if cycles <= 2 then 20 else -1
  }

  /** The switch on the number of completed cycles; more than three selects nothing. */
  function CycleStep(port: Port, g: Ghost, level: nat, tick: int): Ghost {
    if 0 <= g.cyclesCompleted <= 3
    then Navigate(port, g, ScatterSeconds(g.cyclesCompleted, level), ChaseSeconds(g.cyclesCompleted), tick)
    else g
  }

  /** The transition turns the ghost round: it left Scatter or Chase for another state. */
  predicate TurnsRound(before: GhostState, after: GhostState) {
    after != before && (before == Scatter || before == Chase)
  }

  /**
   * updateGhostState / update_ghost_state, for a ghost whose release threshold the score has
   * reached: a dormant ghost is released into Scatter unless it was eaten less than six seconds
   * ago; a frightened ghost stays as it is for six seconds, after which its scatter and chase
   * timestamps are shifted by the frightened time (the browser port also puts it back into
   * Scatter, the console port leaves it Frightened); then the scatter/chase cycle runs, and a
   * ghost that left Scatter or Chase turns round.
   */
  function UpdateGhostState(port: Port, g: Ghost, score: int, level: nat, tick: int): (r: Ghost)
    ensures r.pos == g.pos && r.kind == g.kind && r.target == g.target
    ensures r.releaseThreshold == g.releaseThreshold && r.lastEaten == g.lastEaten
    ensures r.lastFrightened == g.lastFrightened
    ensures g.releaseThreshold > score ==> r == g
    ensures 0 <= g.cyclesCompleted <= 3 ==> 0 <= r.cyclesCompleted <= 3
    ensures r.cyclesCompleted == g.cyclesCompleted ||
            (r.cyclesCompleted == g.cyclesCompleted + 1 && r.state == Scatter && r.lastScatter == tick)
    ensures TurnsRound(g.state, r.state) ==> r.dir == Reverse(g.dir)
    ensures !TurnsRound(g.state, r.state) ==> r.dir == g.dir
  {
    if g.releaseThreshold > score then g
    else if g.state == Dormant then
      if g.lastEaten == -1 || tick - g.lastEaten > SixSeconds then g.(state := Scatter, lastScatter := tick)
      else g
    else if g.state == Frightened && tick - g.lastFrightened <= SixSeconds then g
    else
      var elapsed := tick - g.lastFrightened;
      var g1 :=
        if g.state == Frightened then
          var shifted := g.(lastScatter := g.lastScatter + elapsed, lastChase := g.lastChase + elapsed);
          if port == Js then shifted.(state := Scatter) else shifted
        else g;
      var g2 := CycleStep(port, g1, level, tick);
      if TurnsRound(g.state, g2.state) then g2.(dir := Reverse(g2.dir)) else g2
  }

  /** A dormant ghost past its threshold is released exactly when it was never eaten or eaten over six seconds ago. */
  lemma ReleaseRule(port: Port, g: Ghost, score: int, level: nat, tick: int)
    requires g.state == Dormant && g.releaseThreshold <= score
    ensures var r := UpdateGhostState(port, g, score, level, tick);
      && (r.state == Scatter <==> (g.lastEaten == -1 || tick - g.lastEaten > SixSeconds))
      && (r.state == Scatter ==> r.lastScatter == tick)
      && (r.state != Scatter ==> r == g)
  {
  }

  /** Within six seconds of being frightened nothing changes. */
  lemma FrightWindow(port: Port, g: Ghost, score: int, level: nat, tick: int)
    requires g.state == Frightened && tick - g.lastFrightened <= SixSeconds
    ensures UpdateGhostState(port, g, score, level, tick) == g
  {
  }

  /**
   * The browser port ends the fright after six seconds: both timestamps are shifted by the
   * frightened time and the ghost is back in Scatter, or already in Chase from this tick if its
   * shifted scatter time is used up; it does not turn round and completes no cycle.
   */
  lemma JsFrightEnds(g: Ghost, score: int, level: nat, tick: int)
    requires g.state == Frightened && g.releaseThreshold <= score
    requires tick - g.lastFrightened > SixSeconds
    ensures var r := UpdateGhostState(Js, g, score, level, tick);
      && (r.state == Scatter || r.state == Chase)
      && r.dir == g.dir && r.cyclesCompleted == g.cyclesCompleted
      && r.lastScatter == g.lastScatter + (tick - g.lastFrightened)
      && (r.state == Scatter ==> r.lastChase == g.lastChase + (tick - g.lastFrightened))
      && (r.state == Chase ==> r.lastChase == tick)
  {
  }

  /**
   * The console port never leaves Frightened through this update: past the six seconds it only
   * shifts the scatter and chase timestamps by the whole frightened time, again on every tick.
   */
  lemma CStaysFrightened(g: Ghost, score: int, level: nat, tick: int)
    requires g.state == Frightened && g.releaseThreshold <= score
    ensures var r := UpdateGhostState(C, g, score, level, tick);
      && r.state == Frightened
      && r.dir == g.dir && r.cyclesCompleted == g.cyclesCompleted
      && (tick - g.lastFrightened > SixSeconds ==>
            r.lastScatter == g.lastScatter + (tick - g.lastFrightened) &&
            r.lastChase == g.lastChase + (tick - g.lastFrightened))
  {
  }

  /**
   * Scatter -> Chase: once the scatter time of the current cycle has elapsed (floor(7 / m)
   * seconds in cycles 0 and 1, floor(5 / m) from cycle 2) the ghost chases and turns round.
   */
  lemma ScatterToChaseTiming(port: Port, g: Ghost, score: int, level: nat, tick: int)
    requires g.state == Scatter && g.releaseThreshold <= score && 0 <= g.cyclesCompleted <= 3
    requires ScatterSeconds(g.cyclesCompleted, level) > 0
    ensures var r := UpdateGhostState(port, g, score, level, tick);
      && (r.state == Chase <==>
            tick - g.lastScatter >= ScatterSeconds(g.cyclesCompleted, level) * TicksPerSecond)
      && (r.state == Chase ==> r.lastChase == tick && r.dir == Reverse(g.dir))
      && (r.state != Chase ==> r == g)
  {
  }

  /**
   * Chase -> Scatter: in cycles 0 to 2, after 20 seconds of chasing, the ghost scatters, turns
   * round and completes one more cycle. In the browser port this needs a positive scatter time.
   */
  lemma ChaseToScatterTiming(port: Port, g: Ghost, score: int, level: nat, tick: int)
    requires g.state == Chase && g.releaseThreshold <= score && 0 <= g.cyclesCompleted <= 2
    requires port == Js ==> ScatterSeconds(g.cyclesCompleted, level) > 0
    ensures var r := UpdateGhostState(port, g, score, level, tick);
      && (r.state == Scatter <==> tick - g.lastChase >= 20 * TicksPerSecond)
      && (r.state == Scatter ==>
            r.lastScatter == tick && r.cyclesCompleted == g.cyclesCompleted + 1 && r.dir == Reverse(g.dir))
      && (r.state != Scatter ==> r == g)
  {
  }

  /** In the fourth cycle Chase never ends. */
  lemma FinalChaseIsForever(port: Port, g: Ghost, score: int, level: nat, tick: int)
    requires g.state == Chase && g.cyclesCompleted == 3
    ensures UpdateGhostState(port, g, score, level, tick) == g
  {
  }

  /**
   * When floor(scatter / m) is zero (high levels) the browser port freezes the cycle, while the
   * console port still sends a chasing ghost back to Scatter after 20 seconds.
   */
  lemma ZeroScatterTimeDelta(g: Ghost, score: int, level: nat, tick: int)
    requires g.state == Chase && g.releaseThreshold <= score && 0 <= g.cyclesCompleted <= 2
    requires ScatterSeconds(g.cyclesCompleted, level) == 0
    requires tick - g.lastChase >= 20 * TicksPerSecond
    ensures UpdateGhostState(Js, g, score, level, tick) == g
    ensures UpdateGhostState(C, g, score, level, tick).state == Scatter
  {
  }

  // ---------------------------------------------------------------------------------------
  // Targets

  /** The region around the pen in which a ghost heads for HomeTarget whatever its state. */
  predicate InHome(port: Port, p: Vec) {
    && (match port
        case Js => 11 <= p.x <= 16
        case C => 13 <= p.x <= 14)
    && 16 <= p.y <= 18
  }

  /**
   * The per-kind Chase rule: Blinky aims at the player; Pinky four tiles ahead of the player;
   * Inky at Blinky plus four times the offset from Blinky to the point two tiles ahead of the
   * player; Clyde at the player while more than 8 tiles away (squared distance over 64) and at
   * its corner otherwise.
   */
  function ChaseTarget(k: GhostKind, pacPos: Vec, pacDir: Vec, blinkyPos: Vec, ghostPos: Vec): (t: Vec)
    ensures k == Blinky ==> t == pacPos
    ensures k == Pinky ==> Sub(t, pacPos) == Scale(pacDir, 4)
    ensures k == Inky ==> Sub(t, blinkyPos) == Scale(Sub(Add(pacPos, Scale(pacDir, 2)), blinkyPos), 4)
    ensures k == Clyde ==> (t == pacPos <==> Dist2(ghostPos, pacPos) > 64 || pacPos == ScatterCorner(Clyde))
    ensures k == Clyde ==> (t == pacPos || t == ScatterCorner(Clyde))
  {
    match k
    case Blinky => pacPos
    case Pinky => Add(pacPos, Scale(pacDir, 4))
    case Inky =>
      var pivot := Add(pacPos, Scale(pacDir, 2));
      Add(blinkyPos, Scale(Sub(pivot, blinkyPos), 4))
    case Clyde => if Dist2(ghostPos, pacPos) > 64 then pacPos else ScatterCorner(Clyde)
  }

  /** Pinky aims exactly four tiles from a player facing a cardinal direction. */
  lemma PinkyLeadsByFour(pacPos: Vec, d: Dir, blinkyPos: Vec, ghostPos: Vec)
    requires d != Still
    ensures Dist2(ChaseTarget(Pinky, pacPos, DirVec(d), blinkyPos, ghostPos), pacPos) == 16
  {
  }

  /** Inky's target lies on the line from Blinky through the pivot, and is Blinky's cell when Blinky stands on the pivot. */
  lemma InkyOnBlinkyLine(pacPos: Vec, pacDir: Vec, blinkyPos: Vec, ghostPos: Vec)
    ensures var t := ChaseTarget(Inky, pacPos, pacDir, blinkyPos, ghostPos);
      var pivot := Add(pacPos, Scale(pacDir, 2));
      && (t.x - blinkyPos.x) * (pivot.y - blinkyPos.y) == (t.y - blinkyPos.y) * (pivot.x - blinkyPos.x)
      && (pivot == blinkyPos ==> t == blinkyPos)
  {
    var t := ChaseTarget(Inky, pacPos, pacDir, blinkyPos, ghostPos);
    var pivot := Add(pacPos, Scale(pacDir, 2));
    var dx := pivot.x - blinkyPos.x;
    var dy := pivot.y - blinkyPos.y;
    assert t.x - blinkyPos.x == dx * 4 && t.y - blinkyPos.y == dy * 4;
    assert (dx * 4) * dy == (dy * 4) * dx;
  }

  /**
   * updateGhostTarget / update_ghost_target: inside the home region the target is HomeTarget;
   * otherwise Scatter aims at the kind's corner, Frightened at the random point `rnd`, and
   * Chase at the per-kind point when the chase case ends, but at `rnd` as both ports are
   * written, because their Chase case falls through into the Frightened case. A dormant ghost
   * keeps its target. Nothing but the target changes.
   */
  function UpdateGhostTarget(rules: Rules, g: Ghost, pacPos: Vec, pacDir: Vec, blinkyPos: Vec, rnd: Vec): (r: Ghost)
    ensures r == g.(target := r.target)
    ensures InHome(rules.port, g.pos) ==> r.target == HomeTarget
    ensures !InHome(rules.port, g.pos) ==>
      && (g.state == Scatter ==> r.target == ScatterCorner(g.kind))
      && (g.state == Frightened ==> r.target == rnd)
      && (g.state == Chase && rules.chase == BreakAfterChase ==>
            r.target == ChaseTarget(g.kind, pacPos, pacDir, blinkyPos, g.pos))
      && (g.state == Chase && rules.chase == FallsThrough ==> r.target == rnd)
      && (g.state == Dormant ==> r == g)
  {
    if InHome(rules.port, g.pos) then g.(target := HomeTarget)
    else
      match g.state
      case Scatter => g.(target := ScatterCorner(g.kind))
      case Chase =>
        var chased := ChaseTarget(g.kind, pacPos, pacDir, blinkyPos, g.pos);
        g.(target := if rules.chase == FallsThrough then rnd else chased)
      case Frightened => g.(target := rnd)
      case Dormant => g
  }

  /**
   * As written, a chasing ghost outside the home region targets exactly what a frightened one
   * does: the player's position plays no part.
   */
  lemma FallThroughChaseIsFrightened(port: Port, g: Ghost, pacPos: Vec, pacDir: Vec, pacPos': Vec, pacDir': Vec, blinkyPos: Vec, rnd: Vec)
    requires g.state == Chase
    ensures UpdateGhostTarget(Rules(port, FallsThrough), g, pacPos, pacDir, blinkyPos, rnd)
         == UpdateGhostTarget(Rules(port, FallsThrough), g.(state := Frightened), pacPos', pacDir', blinkyPos, rnd).(state := Chase)
  {
  }

  /**
   * The input that shows the fall-through: Blinky chasing at (1,4) with the player at (13,26)
   * and a random point (0,0) aims at (0,0), not at the player.
   */
  lemma FallThroughCounterexample()
    ensures var g := NewGhost(Js, Blinky, 0).(state := Chase, pos := Vec(1, 4));
      && UpdateGhostTarget(JsAsWritten, g, Vec(13, 26), DirVec(Still), g.pos, Vec(0, 0)).target == Vec(0, 0)
      && ChaseTarget(Blinky, Vec(13, 26), DirVec(Still), g.pos, g.pos) == Vec(13, 26)
  {
  }

  /**
   * With the random point inside the field (the browser port draws it in [0,28) x [0,36)),
   * a ghost's target stays inside the field under the as-written rules: the corners, the home
   * rally point and the random point all lie in it.
   */
  lemma AsWrittenTargetsStayInField(port: Port, g: Ghost, pacPos: Vec, pacDir: Vec, blinkyPos: Vec, rnd: Vec)
    requires Maze.InBounds(rnd) && Maze.InBounds(g.target)
    ensures Maze.InBounds(UpdateGhostTarget(Rules(port, FallsThrough), g, pacPos, pacDir, blinkyPos, rnd).target)
  {
  }
}
