/**
 * One run of the game on the engine: every frame advances the clock, runs the game ticks that
 * are due (ghosts first, then the player, all at the frame's currentTick), and then the key
 * pressed during the frame, if any, takes effect.
 */
module Simulation {
  import opened Vectors
  import opened Rules
  import opened Maze
  import opened Ghosts
  import opened World
  import opened PlayerStep
  import opened GhostMoves
  import opened Engine

  /** The random point each ghost kind would draw, by frame tick and by tick within the frame. */
  type Oracle = (int, nat, GhostKind) -> Vec

  /**
   * What a stretch of play never undoes: the maze's walls and defaults stay, the score does not
   * fall, lives are not regained and a stopped game does not restart by itself.
   */
  ghost predicate Keeps(w: World, r: World) {
    && SameDefaults(w.tiles, r.tiles) && r.score >= w.score
    && r.numLives <= w.numLives && (r.running ==> w.running)
  }

  lemma KeepsTransitive(a: World, b: World, c: World)
    requires Keeps(a, b) && Keeps(b, c)
    ensures Keeps(a, c)
  {
    SameDefaultsTransitive(a.tiles, b.tiles, c.tiles);
  }

  /** The draws available to the j-th tick of the frame at currentTick tick. */
  function TickDraws(rnd: Oracle, tick: int, j: nat): GhostKind -> Vec {
    (k: GhostKind) => rnd(tick, j, k)
  }

  /** onGameTick / on_game_tick: updateGhosts, then updatePacMan. */
  function GameTick(rules: Rules, w: World, tick: int, rnd: GhostKind -> Vec): (r: World)
    requires Valid(w)
    ensures Valid(r) && Keeps(w, r)
    ensures r.level == w.level || r.level == w.level + 1
  {
    var w1 := UpdateGhosts(rules, w, tick, rnd);
    var r := UpdatePacMan(rules, w1, tick);
    SameDefaultsTransitive(w.tiles, w1.tiles, r.tiles);
    r
  }

  /** n catch-up ticks, all reading the same currentTick. */
  function RunTicks(rules: Rules, w: World, n: nat, tick: int, rnd: Oracle): (r: World)
    requires Valid(w)
    ensures Valid(r) && Keeps(w, r)
  {
    if n == 0 then w
    else
      var w1 := RunTicks(rules, w, n - 1, tick, rnd);
      var r := GameTick(rules, w1, tick, TickDraws(rnd, tick, n - 1));
      KeepsTransitive(w, w1, r);
      r
  }

  datatype Sim = Sim(clock: Clock, world: World)

  /**
   * One iteration of the loop body of run: currentTick + 1, the due ticks, and the render
   * (which changes no game state).
   */
  function Frame(rules: Rules, s: Sim, skip: int, rnd: Oracle): (r: Sim)
    requires Valid(s.world) && skip >= 1
    ensures Valid(r.world)
    ensures r.clock == Advance(s.clock, skip).0
  {
    var (c, n) := Advance(s.clock, skip);
    Sim(c, RunTicks(rules, s.world, n, c.currentTick, rnd))
  }

  /** The four directions a key binds; no key sets the player to Still. */
  type Heading = d: Dir | d != Still witness Up

  /** What a key press can do: steer the player, quit, or nothing. */
  datatype Key = Steer(d: Heading) | Quit | NoKey

  /**
   * The key bindings of both ports: w/s/a/d set the player's direction (and only it), q clears
   * isRunning (setIsRunning(false)), any other key does nothing.
   */
  function PressKey(w: World, k: Key): (r: World)
    requires Valid(w)
    ensures Valid(r)
    ensures k.Steer? ==> r == w.(pacMan := Player(w.pacMan.pos, DirVec(k.d)))
    ensures k == Quit ==> r == w.(running := false)
    ensures k == NoKey ==> r == w
  {
    match k
    case Steer(d) => w.(pacMan := Player(w.pacMan.pos, DirVec(d)))
    case Quit => w.(running := false)
    case NoKey => w
  }

  /**
   * The while (isRunning) loop of run, for as many frames as there are keys: a frame is run only
   * while the game is running, and keys[i] is the key pressed during frame i.
   */
  function RunFrames(rules: Rules, s: Sim, skip: int, keys: seq<Key>, rnd: Oracle): (r: Sim)
    requires Valid(s.world) && skip >= 1
    ensures Valid(r.world)
    ensures s.clock.currentTick <= r.clock.currentTick <= s.clock.currentTick + |keys|
    decreases |keys|
  {
    if keys == [] || !s.world.running then s
    else
      var f := Frame(rules, s, skip, rnd);
      RunFrames(rules, Sim(f.clock, PressKey(f.world, keys[0])), skip, keys[1..], rnd)
  }

  /** A key press keeps what play keeps: it changes neither tiles, score nor lives. */
  lemma PressKeyKeeps(w: World, k: Key)
    requires Valid(w)
    ensures Keeps(w, PressKey(w, k))
  {
  }

  /** A whole run keeps what play keeps. */
  lemma {:induction false} RunFramesKeeps(rules: Rules, s: Sim, skip: int, keys: seq<Key>, rnd: Oracle)
    requires Valid(s.world) && skip >= 1
    ensures Keeps(s.world, RunFrames(rules, s, skip, keys, rnd).world)
    decreases |keys|
  {
    if keys != [] && s.world.running {
      var f := Frame(rules, s, skip, rnd);
      var (c, n) := Advance(s.clock, skip);
      var s1 := Sim(f.clock, PressKey(f.world, keys[0]));
      PressKeyKeeps(f.world, keys[0]);
      KeepsTransitive(s.world, f.world, s1.world);
      RunFramesKeeps(rules, s1, skip, keys[1..], rnd);
      KeepsTransitive(s.world, s1.world, RunFrames(rules, s1, skip, keys[1..], rnd).world);
    }
  }

  /** The loop keeps the clock paced: nextTick stays the multiple of skip just ahead of currentTick. */
  lemma {:induction false} RunFramesPaced(rules: Rules, s: Sim, skip: int, keys: seq<Key>, rnd: Oracle)
    requires Valid(s.world) && skip >= 1 && Paced(s.clock, skip)
    ensures Paced(RunFrames(rules, s, skip, keys, rnd).clock, skip)
    decreases |keys|
  {
    if keys != [] && s.world.running {
      var f := Frame(rules, s, skip, rnd);
      PacedFrame(s.clock, skip);
      RunFramesPaced(rules, Sim(f.clock, PressKey(f.world, keys[0])), skip, keys[1..], rnd);
    }
  }

  /** A stopped run runs no frame: the clock and the game stand still. */
  lemma StoppedStaysStopped(rules: Rules, s: Sim, skip: int, keys: seq<Key>, rnd: Oracle)
    requires Valid(s.world) && skip >= 1 && !s.world.running
    ensures RunFrames(rules, s, skip, keys, rnd) == s
  {
  }

  /**
   * Quitting ends the loop after the frame in which q was pressed: that frame still runs, and no
   * later one does.
   */
  lemma QuitEndsAfterFrame(rules: Rules, s: Sim, skip: int, keys: seq<Key>, rnd: Oracle)
    requires Valid(s.world) && skip >= 1 && s.world.running && |keys| > 0 && keys[0] == Quit
    ensures var f := Frame(rules, s, skip, rnd);
      RunFrames(rules, s, skip, keys, rnd) == Sim(f.clock, f.world.(running := false))
  {
  }

  /**
   * The opening of run: isRunning becomes true; neither currentTick nor nextTick is reset, and
   * the game state is left as it is.
   */
  function StartRun(s: Sim): (r: Sim)
    ensures r.clock == s.clock && r.world.running
    ensures r.world == s.world.(running := true)
  {
    Sim(s.clock, s.world.(running := true))
  }

  /** A run as the program starts it: the clock at zero and the world of a new game. */
  function NewSim(port: Port): (r: Sim)
    ensures Valid(r.world) && r.world.numLives == MaxLives && r.world.score == 0
    ensures r.clock == StartClock && Paced(r.clock, DefaultConfig.skipTicks)
  {
    Sim(StartClock, NewGame(port))
  }

  /**
   * From the start, the first frame runs exactly one game tick, at currentTick 1, and the next
   * one falls due sixteen frames later.
   */
  lemma FirstFrameTicks(rules: Rules, rnd: Oracle)
    ensures var s := NewSim(rules.port);
      var f := Frame(rules, s, DefaultConfig.skipTicks, rnd);
      && f.clock == Clock(1, 16)
      && f.world == GameTick(rules, s.world, 1, TickDraws(rnd, 1, 0))
  {
    var s := NewSim(rules.port);
    assert TicksDue(1, 16, 16) == 0;
    assert TicksDue(1, 0, 16) == 1;
    assert RunTicks(rules, s.world, 0, 1, rnd) == s.world;
  }
}
