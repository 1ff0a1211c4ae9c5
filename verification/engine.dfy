/**
 * The engine library the browser port runs on (the console port repeats its frame loop): the
 * configuration record, the fixed-step catch-up arithmetic of the frame loop, and the FIFO queue
 * of pending pixel updates.
 */
module Engine {

  datatype Option<T> = None | Some(value: T)

  // ---------------------------------------------------------------------------------------
  // Configuration

  datatype Config = Config(ticksPerSecond: int, skipTicks: int, windowWidth: int, windowHeight: int)

  /** The library's initial configuration. */
  const DefaultConfig := Config(60, 16, 0, 0)

  /** The keys a caller of initConfig supplies; absent keys keep their value. */
  datatype ConfigPatch = ConfigPatch(
    ticksPerSecond: Option<int>, skipTicks: Option<int>, windowWidth: Option<int>, windowHeight: Option<int>)

  function Override(prior: int, given: Option<int>): int {
    if given.Some? then given.value else prior
  }

  /** initConfig: the object spread `{ ...config, ...newConfig }`. */
  function InitConfig(c: Config, p: ConfigPatch): (r: Config)
    ensures p.ticksPerSecond.Some? ==> r.ticksPerSecond == p.ticksPerSecond.value
    ensures p.ticksPerSecond.None? ==> r.ticksPerSecond == c.ticksPerSecond
    ensures p.skipTicks.Some? ==> r.skipTicks == p.skipTicks.value
    ensures p.skipTicks.None? ==> r.skipTicks == c.skipTicks
    ensures p.windowWidth.Some? ==> r.windowWidth == p.windowWidth.value
    ensures p.windowWidth.None? ==> r.windowWidth == c.windowWidth
    ensures p.windowHeight.Some? ==> r.windowHeight == p.windowHeight.value
    ensures p.windowHeight.None? ==> r.windowHeight == c.windowHeight
  {
    Config(Override(c.ticksPerSecond, p.ticksPerSecond), Override(c.skipTicks, p.skipTicks),
           Override(c.windowWidth, p.windowWidth), Override(c.windowHeight, p.windowHeight))
  }

  /** getWindowDimensions: the configured width and height. */
  function WindowDimensions(c: Config): (int, int) {
    (c.windowWidth, c.windowHeight)
  }

  /** Applying the same patch twice is applying it once; an empty patch changes nothing. */
  lemma InitConfigIdempotent(c: Config, p: ConfigPatch)
    ensures InitConfig(InitConfig(c, p), p) == InitConfig(c, p)
    ensures InitConfig(c, ConfigPatch(None, None, None, None)) == c
  {
  }

  /** The configuration the game supplies: only the window size, 28 x 36. */
  const GamePatch := ConfigPatch(None, None, Some(28), Some(36))

  /** The game keeps the library's 60 ticks per second and 16-frame tick spacing. */
  lemma GameConfig()
    ensures InitConfig(DefaultConfig, GamePatch) == Config(60, 16, 28, 36)
    ensures WindowDimensions(InitConfig(DefaultConfig, GamePatch)) == (28, 36)
  {
  }

  // ---------------------------------------------------------------------------------------
  // The frame loop

  /** currentTick counts frames; nextTick is the frame count at which the next game tick is due. */
  datatype Clock = Clock(currentTick: int, nextTick: int)

  const StartClock := Clock(0, 0)

  /**
   * The number of game ticks the catch-up loop `while (cur > next) { tick; next += skip }` runs:
   * the least n with next + n * skip >= cur.
   */
  function TicksDue(cur: int, next: int, skip: int): (n: nat)
    requires skip >= 1
    ensures next + n * skip >= cur
    ensures n > 0 ==> next + (n - 1) * skip < cur
    decreases if cur > next then cur - next else 0
  {
    if cur > next then 1 + TicksDue(cur, next + skip, skip) else 0
  }

  /**
   * The catch-up loop of run / the console port's run, executed: it counts the ticks it runs and
   * returns the advanced nextTick.
   */
  method CatchUp(cur: int, next: int, skip: int) returns (ticks: nat, next': int)
    requires skip >= 1
    ensures ticks == TicksDue(cur, next, skip)
    ensures next' == next + ticks * skip
    ensures cur <= next'
  {
    ticks := 0;
    next' := next;
    while cur > next'
      invariant next' == next + ticks * skip
      invariant TicksDue(cur, next, skip) == ticks + TicksDue(cur, next', skip)
      decreases cur - next'
    {
      ticks := ticks + 1;
      next' := next' + skip;
    }
  }

  /** One frame's clock: currentTick + 1, then the catch-up. Returns the clock and the ticks run. */
  function Advance(c: Clock, skip: int): (r: (Clock, nat))
    requires skip >= 1
    ensures r.0.currentTick == c.currentTick + 1
    ensures r.0.nextTick == c.nextTick + r.1 * skip
    ensures r.0.currentTick <= r.0.nextTick
  {
    var cur := c.currentTick + 1;
    var n := TicksDue(cur, c.nextTick, skip);
    (Clock(cur, c.nextTick + n * skip), n)
  }

  /** sleepTime: what is left until the next tick is due. */
  function SleepTime(c: Clock): int {
    c.nextTick - c.currentTick
  }

  /**
   * The clock as it stands between frames of a run started from zero: nextTick is a multiple of
   * skip and currentTick lies in the last skip frames before it.
   */
  predicate Paced(c: Clock, skip: int)
    requires skip >= 1
  {
    c.nextTick % skip == 0 && c.nextTick - skip < c.currentTick <= c.nextTick
  }

  lemma StartIsPaced(skip: int)
    requires skip >= 1
    ensures Paced(StartClock, skip)
  {
  }

  /** Multiplying by a non-negative factor keeps the order. */
  lemma MulMono(a: int, b: int, s: int)
    requires s >= 0
    ensures a <= b ==> a * s <= b * s
  {
    if a <= b {
      assert b * s - a * s == (b - a) * s;
    }
  }

  lemma Distribute(a: int, b: int, s: int)
    ensures (a + b) * s == a * s + b * s
  {
  }

  /** A multiple of skip leaves no remainder. */
  lemma MultipleMod(q: int, skip: int)
    requires skip >= 1
    ensures (q * skip) % skip == 0
  {
    var m := (q * skip) / skip;
    var r := (q * skip) % skip;
    assert r == (q - m) * skip;
    MulMono(1, q - m, skip);
    MulMono(q - m, -1, skip);
  }

  /** A number strictly between two consecutive multiples of skip is no multiple of skip. */
  lemma BetweenMultiples(a: int, next: int, skip: int)
    requires skip >= 1 && next % skip == 0 && next - skip < a < next
    ensures a % skip != 0
  {
    var q := next / skip;
    var m := a / skip;
    assert next == q * skip;
    assert a == m * skip + a % skip;
    MulMono(m, q - 1, skip);
    MulMono(q, m, skip);
  }

  /**
   * From a paced clock a frame runs at most one game tick, it runs one exactly when the new
   * currentTick - 1 is a multiple of skip, the clock stays paced, and the sleep time lies in
   * [0, skip), so the sleep branch is always taken.
   */
  lemma PacedFrame(c: Clock, skip: int)
    requires skip >= 1 && Paced(c, skip)
    ensures var (c', n) := Advance(c, skip);
      && n <= 1
      && (n == 1 <==> (c'.currentTick - 1) % skip == 0)
      && Paced(c', skip)
      && 0 <= SleepTime(c') < skip
  {
    var cur := c.currentTick + 1;
    var next := c.nextTick;
    if c.currentTick == next {
      assert TicksDue(cur, next + skip, skip) == 0;
      assert TicksDue(cur, next, skip) == 1;
      var q := next / skip;
      assert next + skip == (q + 1) * skip;
      MultipleMod(q + 1, skip);
    } else {
      assert TicksDue(cur, next, skip) == 0;
      BetweenMultiples(c.currentTick, next, skip);
    }
  }

  /** The clock and the total ticks after k frames from the start. */
  function Frames(skip: int, k: nat): (r: (Clock, nat))
    requires skip >= 1
    ensures r.0.currentTick == k
  {
    if k == 0 then (StartClock, 0)
    else
      var (c, t) := Frames(skip, k - 1);
      var (c', n) := Advance(c, skip);
      (c', t + n)
  }

  /** Every frame from the start leaves the clock paced, with nextTick the ticks run times skip. */
  lemma {:induction false} FramesPaced(skip: int, k: nat)
    requires skip >= 1
    ensures var (c, t) := Frames(skip, k);
      Paced(c, skip) && c.nextTick == t * skip
  {
    if k > 0 {
      FramesPaced(skip, k - 1);
      var (c0, t0) := Frames(skip, k - 1);
      PacedFrame(c0, skip);
      var n := Advance(c0, skip).1;
      Distribute(t0, n, skip);
    }
  }

  /**
   * Over k frames from the start the loop runs ceil(k / skip) game ticks: nextTick is always the
   * ticks run times skip, and pacing keeps it within skip of the frame count.
   */
  lemma TickRate(skip: int, k: nat)
    requires skip >= 1
    ensures var (c, t) := Frames(skip, k);
      && Paced(c, skip) && c.nextTick == t * skip
      && t == (k + skip - 1) / skip
  {
    FramesPaced(skip, k);
    var (c, t) := Frames(skip, k);
    assert (t - 1) * skip == t * skip - skip;
    CeilDiv(k, skip, t);
  }

  /** t is ceil(k / skip) when (t - 1) * skip < k <= t * skip. */
  lemma CeilDiv(k: int, skip: int, t: int)
    requires skip >= 1 && (t - 1) * skip < k <= t * skip
    ensures t == (k + skip - 1) / skip
  {
    var q := (k + skip - 1) / skip;
    assert q * skip <= k + skip - 1 < q * skip + skip;
    assert (t - 1) * skip + skip == t * skip;
    assert q * skip + skip == (q + 1) * skip;
    MulMono(q + 1, t, skip);
    MulMono(t + 1, q, skip);
    assert t * skip + skip == (t + 1) * skip;
  }

  // ---------------------------------------------------------------------------------------
  // The pending-update queue

  /** One queued pixel update. */
  datatype Pending<C> = Pending(x: int, y: int, color: C)

  /**
   * renderAtPos: one entry appended, y as given and x shifted by floor((charsPerRow -
   * windowWidth) / 2) - 1 so that the field is centred in the row.
   */
  function RenderAtPos<C>(q: seq<Pending<C>>, charsPerRow: int, windowWidth: int, x: int, y: int, color: C): (r: seq<Pending<C>>)
    ensures |r| == |q| + 1 && r[..|q|] == q
    ensures r[|q|].y == y && r[|q|].color == color
    ensures var off := r[|q|].x - x + 1;
      2 * off <= charsPerRow - windowWidth < 2 * off + 2
  {
    q + [Pending(x + (charsPerRow - windowWidth) / 2 - 1, y, color)]
  }

  /** clearPendingFrameChanges. */
  function ClearPending<C>(q: seq<Pending<C>>): (r: seq<Pending<C>>)
    ensures |r| == 0
  {
    []
  }

  /** The screen: the colour of every pixel that exists. */
  type Screen<C> = map<(int, int), C>

  /** setPixel: recolours the pixel when it exists, and does nothing otherwise. */
  function SetPixel<C>(s: Screen<C>, x: int, y: int, color: C): Screen<C> {
    if (x, y) in s then s[(x, y) := color] else s
  }

  /** The colour of the last update in q aimed at (x, y), or `prior` when there is none. */
  function LastColor<C>(q: seq<Pending<C>>, x: int, y: int, prior: C): C {
    if q == [] then prior
    else if q[|q| - 1].x == x && q[|q| - 1].y == y then q[|q| - 1].color
    else LastColor(q[..|q| - 1], x, y, prior)
  }

  /**
   * The default onFrameRender: take updates from the front of the queue one at a time and set
   * each pixel. The queue ends empty, the pixels are set in insertion order, no pixel is created,
   * and each existing pixel ends with the colour of the last update aimed at it.
   */
  method FlushPending<C>(s: Screen<C>, q: seq<Pending<C>>) returns (s': Screen<C>, drawn: seq<Pending<C>>, rest: seq<Pending<C>>)
    ensures rest == [] && drawn == q
    ensures s'.Keys == s.Keys
    ensures forall p :: p in s ==> s'[p] == LastColor(q, p.0, p.1, s[p])
  {
    s' := s;
    drawn := [];
    rest := q;
    while |rest| > 0
      invariant drawn + rest == q
      invariant s'.Keys == s.Keys
      invariant forall p :: p in s ==> s'[p] == LastColor(drawn, p.0, p.1, s[p])
      decreases |rest|
    {
      var change := rest[0];
      rest := rest[1..];
      s' := SetPixel(s', change.x, change.y, change.color);
      var drawn' := drawn + [change];
      assert drawn'[..|drawn'| - 1] == drawn;
      drawn := drawn';
    }
  }
}
